/**
 * Scene generation with bounded repair: `process_scene` decodes a reply
 * and, while decoding fails and retries remain, asks the chat service
 * again with the same history; `get_next_scene` makes the first request
 * of a turn (or hands over to the ending at the step limit) and turns a
 * failed request into an in-story ending.
 *
 * The chat service is an oracle: `replies[k]` is what the k-th request
 * of the turn would bring back. A request past the end of the script
 * fails like a network error.
 */
module Generation {
  import opened Wrappers
  import Text
  import opened Scenes

  /** The outcome of one chat-completion request. */
  datatype Response =
    | Reply(content: string)
    | Failed  // the request raised: network or API error, or no message content

  /** `MAX_RETRIES` in `process_scene`. */
  const MaxRetries: nat := 3
  /** `MAX_STEPS` of `AdventureGame`. */
  const MaxSteps: nat := 5

  /** The answer to the k-th request. */
  function Ask(replies: seq<Response>, k: nat): Response
  {
    if k < |replies| then replies[k] else Failed
  }

  /** The script after its first request has been answered. */
  function Rest(replies: seq<Response>): seq<Response>
  {
    if |replies| == 0 then [] else replies[1..]
  }

  /** Dropping the answered request shifts every later answer down by one. */
  lemma AskRest(replies: seq<Response>)
    ensures forall k: nat :: Ask(Rest(replies), k) == Ask(replies, k + 1)
  {
  }

  /** What a `process_scene` call ends in, with the number of requests it issued. */
  datatype Attempt =
    | Parsed(value: Value, requests: nat)
    | Raised(requests: nat)  // a request raised and the exception left process_scene

  /** Requests `process_scene` may still issue at retry count `retries`. */
  function RetriesLeft(retries: nat): nat
  {
    if retries < MaxRetries then MaxRetries - retries else 0
  }

  /**
   * `process_scene(scene_text, retries)`: the decoded value if `text`
   * decodes; otherwise, while retries remain, a new request whose reply
   * is stripped and extracted and then processed with one retry more;
   * and the fixed fallback scene once they are used up.
   */
  function ProcessScene(loads: string -> Option<Value>, clean: string -> string, text: string, retries: nat, replies: seq<Response>): (r: Attempt)
    ensures r.requests <= RetriesLeft(retries)
    ensures loads(text).Some? ==> r == Parsed(loads(text).value, 0)
    ensures r.Raised? ==> r.requests >= 1 && Ask(replies, r.requests - 1) == Failed
    decreases RetriesLeft(retries)
  {
    match loads(text)
    case Some(v) => Parsed(v, 0)
    case None =>
      if retries < MaxRetries then
        match Ask(replies, 0)
        case Failed => Raised(1)
        case Reply(c) =>
          AskRest(replies);
          match ProcessScene(loads, clean, clean(c), retries + 1, Rest(replies))
          case Parsed(v, n) => Parsed(v, n + 1)
          case Raised(n) => Raised(n + 1)
      else
        Parsed(FallbackScene, 0)
  }

  /**
   * The text decoded on attempt `k` of a `process_scene` chain that
   * starts from `text`: attempt 0 decodes `text`, attempt k > 0 the
   * k-th reply (request k - 1), stripped and extracted.
   */
  function AttemptText(clean: string -> string, text: string, replies: seq<Response>, k: nat): string
    requires k == 0 || Ask(replies, k - 1).Reply?
  {
    if k == 0 then text else clean(Ask(replies, k - 1).content)
  }

  /** The first `n` requests were all answered. */
  ghost predicate Answered(replies: seq<Response>, n: nat)
  {
    forall j :: 0 <= j < n ==> Ask(replies, j).Reply?
  }

  /** Attempts 0 to `n` - 1 all fail to decode. */
  ghost predicate Undecodable(loads: string -> Option<Value>, clean: string -> string, text: string, replies: seq<Response>, n: nat)
    requires n == 0 || Answered(replies, n - 1)
  {
    forall j :: 0 <= j < n ==> loads(AttemptText(clean, text, replies, j)).None?
  }

  /** Every request of a chain but a last failed one was answered. */
  lemma {:induction false} ProcessSceneAnswered(
    loads: string -> Option<Value>, clean: string -> string, text: string, retries: nat, replies: seq<Response>)
    ensures var r := ProcessScene(loads, clean, text, retries, replies);
      (r.Parsed? ==> Answered(replies, r.requests)) && (r.Raised? ==> Answered(replies, r.requests - 1))
    decreases RetriesLeft(retries)
  {
    if loads(text).None? && retries < MaxRetries && Ask(replies, 0).Reply? {
      AskRest(replies);
      ProcessSceneAnswered(loads, clean, clean(Ask(replies, 0).content), retries + 1, Rest(replies));
    }
  }

  /** Answered requests stay answered, one place earlier, once the first is used. */
  lemma AnsweredRest(replies: seq<Response>, n: nat)
    requires Answered(replies, n + 1)
    ensures Answered(Rest(replies), n)
  {
    AskRest(replies);
  }

  /**
   * Undecodable attempts 1 to n of a chain are attempts 0 to n - 1 of
   * the chain that starts from the cleaned first reply.
   */
  lemma ShiftAttempts(loads: string -> Option<Value>, clean: string -> string, text: string, c: string, replies: seq<Response>, n: nat)
    requires Ask(replies, 0) == Reply(c)
    requires Answered(replies, n) && Undecodable(loads, clean, text, replies, n + 1)
    ensures n == 0 || Answered(Rest(replies), n - 1)
    ensures Undecodable(loads, clean, clean(c), Rest(replies), n)
  {
    AskRest(replies);
    forall j | 0 <= j < n
      ensures AttemptText(clean, clean(c), Rest(replies), j) == AttemptText(clean, text, replies, j + 1)
    {
    }
  }

  /**
   * The first decodable reply is returned as decoded: when attempts 0 to
   * k - 1 fail and attempt k decodes to `v`, the chain returns `v` after
   * k requests.
   */
  lemma {:induction false} FirstDecodableReturned(
    loads: string -> Option<Value>, clean: string -> string, text: string, retries: nat, replies: seq<Response>, k: nat, v: Value)
    requires retries + k <= MaxRetries
    requires Answered(replies, k) && Undecodable(loads, clean, text, replies, k)
    requires loads(AttemptText(clean, text, replies, k)) == Some(v)
    ensures ProcessScene(loads, clean, text, retries, replies) == Parsed(v, k)
    decreases k
  {
    if k > 0 {
      var c := Ask(replies, 0).content;
      assert loads(AttemptText(clean, text, replies, 0)).None?;
      AnsweredRest(replies, k - 1);
      ShiftAttempts(loads, clean, text, c, replies, k - 1);
      assert AttemptText(clean, clean(c), Rest(replies), k - 1) == AttemptText(clean, text, replies, k);
      FirstDecodableReturned(loads, clean, clean(c), retries + 1, Rest(replies), k - 1, v);
    }
  }

  /**
   * With every retry answered and all four attempts undecodable, the
   * chain issues exactly three requests and returns the fallback scene.
   */
  lemma {:induction false} UndecodableEndsInFallback(
    loads: string -> Option<Value>, clean: string -> string, text: string, retries: nat, replies: seq<Response>)
    requires retries <= MaxRetries
    requires Answered(replies, MaxRetries - retries)
    requires Undecodable(loads, clean, text, replies, MaxRetries - retries + 1)
    ensures ProcessScene(loads, clean, text, retries, replies) == Parsed(FallbackScene, MaxRetries - retries)
    decreases MaxRetries - retries
  {
    assert loads(AttemptText(clean, text, replies, 0)).None?;
    if retries < MaxRetries {
      var c := Ask(replies, 0).content;
      ShiftAttempts(loads, clean, text, c, replies, MaxRetries - retries);
      UndecodableEndsInFallback(loads, clean, clean(c), retries + 1, Rest(replies));
    }
  }

  /**
   * A request that fails ends the chain at once: when attempts 0 to k
   * fail to decode and request k fails, the exception leaves
   * `process_scene` after k + 1 requests.
   */
  lemma {:induction false} FailedRequestRaises(
    loads: string -> Option<Value>, clean: string -> string, text: string, retries: nat, replies: seq<Response>, k: nat)
    requires retries + k < MaxRetries
    requires Answered(replies, k) && Undecodable(loads, clean, text, replies, k + 1)
    requires Ask(replies, k) == Failed
    ensures ProcessScene(loads, clean, text, retries, replies) == Raised(k + 1)
    decreases k
  {
    assert loads(AttemptText(clean, text, replies, 0)).None?;
    if k > 0 {
      var c := Ask(replies, 0).content;
      ShiftAttempts(loads, clean, text, c, replies, k);
      FailedRequestRaises(loads, clean, clean(c), retries + 1, Rest(replies), k - 1);
    }
  }

  /** A scene for the caller and the number of requests spent on it. */
  datatype Generated = Generated(scene: Value, requests: nat)

  /**
   * `end_game(game_over_message)`. A non-empty message gives the
   * message ending at once; no message (None or "") asks the chat
   * service for an ending, extracts the JSON span of the reply (no fence
   * cleanup, no strip) and runs the repair chain on it; a request that
   * fails gives the "comes to an end" ending with the live stats.
   */
  function EndGame(loads: string -> Option<Value>, message: string, p: Snapshot, replies: seq<Response>): (g: Generated)
    ensures message != "" ==> g == Generated(GameOverScene(message, p), 0)
    ensures message == "" ==> 1 <= g.requests <= MaxRetries + 1
    ensures message == "" && Ask(replies, 0).Failed? ==>
              g == Generated(GameOverScene(EndingFailedMessage, p), 1)
  {
    if message != "" then Generated(GameOverScene(message, p), 0)
    else
      match Ask(replies, 0)
      case Failed => Generated(GameOverScene(EndingFailedMessage, p), 1)
      case Reply(c) =>
        match ProcessScene(loads, Text.CleanRetryReply, Text.ExtractJson(c), 0, Rest(replies))
        case Parsed(v, n) => Generated(v, n + 1)
        case Raised(n) => Generated(GameOverScene(EndingFailedMessage, p), n + 1)
  }

  /**
   * `get_next_scene`: at the step limit, the model-narrated ending;
   * otherwise one request whose reply is cleaned (fences removed,
   * stripped, extracted) and repaired, any failed request becoming the
   * "unexpected error" ending. A turn issues at least one and at most
   * four requests.
   */
  function NextScene(loads: string -> Option<Value>, p: Snapshot, replies: seq<Response>): (g: Generated)
    ensures 1 <= g.requests <= MaxRetries + 1
    ensures p.step >= MaxSteps ==> g == EndGame(loads, "", p, replies)
    ensures p.step < MaxSteps && Ask(replies, 0).Failed? ==>
              g == Generated(GameOverScene(UnexpectedErrorMessage, p), 1)
  {
    if p.step >= MaxSteps then EndGame(loads, "", p, replies)
    else
      match Ask(replies, 0)
      case Failed => Generated(GameOverScene(UnexpectedErrorMessage, p), 1)
      case Reply(c) =>
        match ProcessScene(loads, Text.CleanRetryReply, Text.CleanReply(c), 0, Rest(replies))
        case Parsed(v, n) => Generated(v, n + 1)
        case Raised(n) => Generated(GameOverScene(UnexpectedErrorMessage, p), n + 1)
  }

  /** A first reply that decodes once cleaned is the scene, after one request. */
  lemma DecodableFirstReplyIsScene(loads: string -> Option<Value>, p: Snapshot, replies: seq<Response>, c: string, v: Value)
    requires p.step < MaxSteps && Ask(replies, 0) == Reply(c)
    requires loads(Text.CleanReply(c)) == Some(v)
    ensures NextScene(loads, p, replies) == Generated(v, 1)
  {
  }

  /**
   * Four undecodable replies in a row: the turn makes exactly four
   * requests and ends with the fallback scene.
   */
  lemma FourUndecodableRepliesGiveFallback(loads: string -> Option<Value>, p: Snapshot, replies: seq<Response>)
    requires p.step < MaxSteps
    requires Answered(replies, MaxRetries + 1)
    requires loads(Text.CleanReply(Ask(replies, 0).content)).None?
    requires forall j :: 1 <= j <= MaxRetries ==> loads(Text.CleanRetryReply(Ask(replies, j).content)).None?
    ensures NextScene(loads, p, replies) == Generated(FallbackScene, MaxRetries + 1)
  {
    var text := Text.CleanReply(Ask(replies, 0).content);
    var rest := Rest(replies);
    AskRest(replies);
    forall j | 0 <= j <= MaxRetries ensures loads(AttemptText(Text.CleanRetryReply, text, rest, j)).None? {
      if j > 0 { assert AttemptText(Text.CleanRetryReply, text, rest, j) == Text.CleanRetryReply(Ask(replies, j).content); }
    }
    UndecodableEndsInFallback(loads, Text.CleanRetryReply, text, 0, rest);
  }

  /**
   * A retry request that fails ends the turn at once: when the first k
   * replies do not decode and request k fails, the turn returns the
   * "unexpected error" ending after k + 1 requests.
   */
  lemma FailedRetryGivesErrorEnding(loads: string -> Option<Value>, p: Snapshot, replies: seq<Response>, k: nat)
    requires p.step < MaxSteps
    requires 1 <= k <= MaxRetries && Answered(replies, k) && Ask(replies, k) == Failed
    requires loads(Text.CleanReply(Ask(replies, 0).content)).None?
    requires forall j :: 1 <= j < k ==> loads(Text.CleanRetryReply(Ask(replies, j).content)).None?
    ensures NextScene(loads, p, replies) == Generated(GameOverScene(UnexpectedErrorMessage, p), k + 1)
  {
    var text := Text.CleanReply(Ask(replies, 0).content);
    var rest := Rest(replies);
    AskRest(replies);
    forall j | 0 <= j < k ensures loads(AttemptText(Text.CleanRetryReply, text, rest, j)).None? {
      if j > 0 { assert AttemptText(Text.CleanRetryReply, text, rest, j) == Text.CleanRetryReply(Ask(replies, j).content); }
    }
    FailedRequestRaises(loads, Text.CleanRetryReply, text, 0, rest, k - 1);
  }

  /**
   * The same for the model-narrated ending: a failed retry request gives
   * the "comes to an end" ending after k + 1 requests.
   */
  lemma FailedRetryEndsStory(loads: string -> Option<Value>, p: Snapshot, replies: seq<Response>, k: nat)
    requires 1 <= k <= MaxRetries && Answered(replies, k) && Ask(replies, k) == Failed
    requires loads(Text.ExtractJson(Ask(replies, 0).content)).None?
    requires forall j :: 1 <= j < k ==> loads(Text.CleanRetryReply(Ask(replies, j).content)).None?
    ensures EndGame(loads, "", p, replies) == Generated(GameOverScene(EndingFailedMessage, p), k + 1)
  {
    var text := Text.ExtractJson(Ask(replies, 0).content);
    var rest := Rest(replies);
    AskRest(replies);
    forall j | 0 <= j < k ensures loads(AttemptText(Text.CleanRetryReply, text, rest, j)).None? {
      if j > 0 { assert AttemptText(Text.CleanRetryReply, text, rest, j) == Text.CleanRetryReply(Ask(replies, j).content); }
    }
    FailedRequestRaises(loads, Text.CleanRetryReply, text, 0, rest, k - 1);
  }
}
