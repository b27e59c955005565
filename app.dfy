/**
 * The App component's handler for face crops: a 700 ms rate limit, one
 * request to the classification service, and the mapping of its reply onto
 * the current emotion, the confidence, an error banner and a ten-entry,
 * newest-first history.
 *
 * The request itself is outside the model: the handler receives the reply it
 * would get as a `Response` value.
 */
module App {
  import opened Wrappers
  import Decimal

  /** Minimum time between two accepted crops, in milliseconds. */
  const RateLimit: int := 700

  /** Number of recent results the history keeps. */
  const HistoryCapacity: nat := 10

  /** An HTTP status (at most three digits) for which `res.ok` is false: one outside 200-299. */
  type FailureStatus = s: nat | s < 1000 && !(200 <= s <= 299) witness 500

  /** What awaiting the classification request ended with. */
  datatype Response =
    /** `fetch` or reading the body threw, with the exception's message. */
    | NetworkFailure(message: string)
    /** A reply with a failure status; `error` is the body's `error` field, if the body parsed. */
    | NotOk(status: FailureStatus, error: Option<string>)
    /** A reply with a success status and a parsed JSON body. */
    | OkBody(error: Option<string>, emotion: Option<string>, labelText: Option<string>, confidence: Option<real>)

  /** One row of the recent-results list; the confidence is a percentage. */
  datatype HistoryEntry = HistoryEntry(emotion: string, confidence: real)

  /** What a reply means for the display. */
  datatype Outcome =
    | Classified(emotion: string, confidence: real, entry: HistoryEntry)
    | Failed(message: string)

  /** `(confidence || 0) * 100`. */
  function Percent(c: Option<real>): (p: real)
    ensures c.Some? && 0.0 <= c.value <= 1.0 ==> 0.0 <= p <= 100.0
    ensures c.None? ==> p == 0.0
  {
    (if c.Some? then c.value else 0.0) * 100.0
  }

  /** The message of the error thrown for a reply with a failure status. */
  function ServerMessage(status: FailureStatus, error: Option<string>): string
  {
    "Server returned " + Decimal.NatToString(status) + (if Truthy(error) then ": " + error.value else "")
  }

  /**
   * The meaning of a reply: a failure exactly on a thrown exception, a failure
   * status, or a body with a truthy `error`; otherwise a classification whose
   * current emotion comes from `emotion` and whose history row comes from `label`.
   */
  function Classify(r: Response): (o: Outcome)
    ensures o.Failed? <==> (r.NetworkFailure? || r.NotOk? || Truthy(r.error))
    ensures o.Failed? ==> o.message != ""
    ensures r.OkBody? && Truthy(r.error) ==> o == Failed(r.error.value)
    ensures r.NetworkFailure? ==> o.message == OrElse(Some(r.message), "Prediction failed")
    ensures o.Classified? ==>
      o.emotion == OrElse(r.emotion, "Unknown") && o.entry.emotion == OrElse(r.labelText, "Unknown")
      && o.confidence == o.entry.confidence == Percent(r.confidence)
  {
    match r
    case NetworkFailure(m) => Failed(OrElse(Some(m), "Prediction failed"))
    case NotOk(status, error) => Failed(ServerMessage(status, error))
    case OkBody(error, emotion, labelText, confidence) =>
      if Truthy(error) then Failed(error.value)
      else
        var percent := Percent(confidence);
        Classified(OrElse(emotion, "Unknown"), percent, HistoryEntry(OrElse(labelText, "Unknown"), percent))
  }

  /**
   * A reply carrying `emotion` but no `label`: the current emotion is shown,
   * while its history row reads "Unknown".
   */
  lemma EmotionOnlyReply()
    ensures Classify(OkBody(None, Some("happy"), None, Some(0.82)))
         == Classified("happy", 82.0, HistoryEntry("Unknown", 82.0))
  {
  }

  /** A failure-status message names the status, followed by the server's error text exactly when there is one. */
  lemma NotOkMessage(status: FailureStatus, error: Option<string>)
    ensures var m := Classify(NotOk(status, error)).message;
      var prefix := "Server returned " + Decimal.NatToString(status);
      |prefix| <= |m| && m[..|prefix|] == prefix
      && (Truthy(error) <==> |m| > |prefix|)
      && (Truthy(error) ==> m[|prefix|..] == ": " + error.value)
  {
  }

  /** Failure statuses without error text are told apart by their messages. */
  lemma NotOkMessageInjective(s1: FailureStatus, s2: FailureStatus)
    requires Classify(NotOk(s1, None)).message == Classify(NotOk(s2, None)).message
    ensures s1 == s2
  {
    var p := "Server returned ";
    var d1, d2 := Decimal.NatToString(s1), Decimal.NatToString(s2);
    assert Classify(NotOk(s1, None)).message == p + d1 + "";
    assert Classify(NotOk(s2, None)).message == p + d2 + "";
    assert d1 == (p + d1 + "")[|p|..];
    assert d2 == (p + d2 + "")[|p|..];
    Decimal.NatToStringInjective(s1, s2);
  }

  // ---------------------------------------------------------------------------
  // History: `[newEntry, ...prev].slice(0, 10)`

  /** Prepends `entry` and keeps the first ten rows. */
  function PushHistory(entry: HistoryEntry, prev: seq<HistoryEntry>): (h: seq<HistoryEntry>)
    ensures |h| == if |prev| < HistoryCapacity then |prev| + 1 else HistoryCapacity
    ensures h[0] == entry
    ensures forall i :: 1 <= i < |h| ==> h[i] == prev[i - 1]
  {
    var s := [entry] + prev;
    if |s| <= HistoryCapacity then s else s[..HistoryCapacity]
  }

  /** The history after a run of successes, oldest first in `entries`. */
  function PushAll(entries: seq<HistoryEntry>, prev: seq<HistoryEntry>): seq<HistoryEntry>
  {
    if entries == [] then prev
    else PushHistory(entries[|entries| - 1], PushAll(entries[..|entries| - 1], prev))
  }

  /** From an empty history, the list holds the last ten results, newest first. */
  lemma {:induction false} HistoryNewestFirst(entries: seq<HistoryEntry>)
    ensures var h := PushAll(entries, []);
      |h| == (if |entries| < HistoryCapacity then |entries| else HistoryCapacity)
      && forall i :: 0 <= i < |h| ==> h[i] == entries[|entries| - 1 - i]
  {
    if entries != [] {
      HistoryNewestFirst(entries[..|entries| - 1]);
    }
  }

  /** After eleven or more distinct results the first one has been evicted. */
  lemma OldestEvicted(entries: seq<HistoryEntry>)
    requires |entries| > HistoryCapacity
    requires forall j :: 0 < j < |entries| ==> entries[j] != entries[0]
    ensures entries[0] !in PushAll(entries, [])
  {
    HistoryNewestFirst(entries);
  }

  // ---------------------------------------------------------------------------
  // The component state the handler writes

  class EmotionPanel {
    var lastSent: int
    var emotion: string
    var confidence: real
    var history: seq<HistoryEntry>
    var errorMsg: Option<string>
    var isLoading: bool

    ghost predicate Valid()
      reads this
    {
      |history| <= HistoryCapacity
    }

    /** The component's initial state. */
    constructor ()
      ensures Valid()
      ensures lastSent == 0 && emotion == "No emotion detected yet" && confidence == 0.0
      ensures history == [] && errorMsg == None && !isLoading
    {
      lastSent := 0;
      emotion := "No emotion detected yet";
      confidence := 0.0;
      history := [];
      errorMsg := None;
      isLoading := false;
    }

    /**
     * The handler up to the request: the rate limit, which records the time
     * before the empty-crop check, then the loading flag and a cleared error.
     * Returns whether a request is sent.
     */
    method Submit(now: int, dataUrl: string) returns (requested: bool)
      requires Valid()
      modifies this
      ensures Valid()
      ensures requested <==> now - old(lastSent) >= RateLimit && dataUrl != ""
      ensures lastSent == if now - old(lastSent) < RateLimit then old(lastSent) else now
      ensures requested ==> isLoading && errorMsg == None
      ensures !requested ==> isLoading == old(isLoading) && errorMsg == old(errorMsg)
      ensures emotion == old(emotion) && confidence == old(confidence) && history == old(history)
    {
      if now - lastSent < RateLimit {
        return false;
      }
      lastSent := now;
      if dataUrl == "" {
        return false;
      }
      isLoading := true;
      errorMsg := None;
      requested := true;
    }

    /**
     * The handler after the request: the reply's outcome, then the loading
     * flag cleared whatever happened.
     */
    method Settle(response: Response)
      requires Valid()
      modifies this
      ensures Valid()
      ensures !isLoading && lastSent == old(lastSent)
      ensures var o := Classify(response);
        if o.Classified? then
          emotion == o.emotion && confidence == o.confidence
          && history == PushHistory(o.entry, old(history)) && errorMsg == old(errorMsg)
        else
          emotion == "Error" && confidence == 0.0 && history == old(history) && errorMsg == Some(o.message)
    {
      var outcome := Classify(response);
      match outcome {
        case Failed(message) =>
          errorMsg := Some(message);
          emotion := "Error";
          confidence := 0.0;
        case Classified(e, c, entry) =>
          emotion := e;
          confidence := c;
          history := PushHistory(entry, history);
      }
      isLoading := false;
    }

    /** One call of the handler with `dataUrl` at time `now`, its request answered by `response`. */
    method HandleFaceCropped(now: int, dataUrl: string, response: Response) returns (requested: bool)
      requires Valid()
      modifies this
      ensures Valid()
      ensures requested <==> now - old(lastSent) >= RateLimit && dataUrl != ""
      ensures lastSent == if now - old(lastSent) < RateLimit then old(lastSent) else now
      ensures !requested ==>
        emotion == old(emotion) && confidence == old(confidence) && history == old(history)
        && errorMsg == old(errorMsg) && isLoading == old(isLoading)
      ensures requested ==> !isLoading
      ensures requested ==> var o := Classify(response);
        if o.Classified? then
          emotion == o.emotion && confidence == o.confidence
          && history == PushHistory(o.entry, old(history)) && errorMsg == None
        else
          emotion == "Error" && confidence == 0.0 && history == old(history) && errorMsg == Some(o.message)
    {
      requested := Submit(now, dataUrl);
      if requested {
        Settle(response);
      }
    }
  }

  /** Crops at T, T+500 and T+750: the second falls inside the window and is dropped. */
  method RateLimitScenario(t: int, url: string, response: Response) returns (first: bool, second: bool, third: bool)
    requires t >= RateLimit && url != ""
    ensures first && !second && third
  {
    var panel := new EmotionPanel();
    first := panel.HandleFaceCropped(t, url, response);
    second := panel.HandleFaceCropped(t + 500, url, response);
    third := panel.HandleFaceCropped(t + 750, url, response);
  }

  /** An empty crop in an open slot uses the slot up: a real crop 100 ms later is dropped and nothing is shown. */
  method EmptyCropScenario(t: int, url: string, response: Response) returns (first: bool, second: bool, history: seq<HistoryEntry>)
    requires t >= RateLimit && url != ""
    ensures !first && !second && history == []
  {
    var panel := new EmotionPanel();
    first := panel.HandleFaceCropped(t, "", response);
    second := panel.HandleFaceCropped(t + 100, url, response);
    history := panel.history;
  }
}
