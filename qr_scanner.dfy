/**
 * The scanner page: the operator types a QR code id, `handleScan` checks it, asks the backend
 * to redeem it and records the attempt at the head of a history that keeps the five most
 * recent attempts; `clearScan` hides the patient card.
 *
 * The history update is the pure function `Pushed`; the component is the class `QrScanner`,
 * whose ghost field `attempts` holds every attempt ever made (newest first), so that its
 * invariant can say what the bounded history is: the five newest attempts.
 */
module QrScanner {
  import opened Wrappers
  import opened JsText
  import opened QrController

  /** How many attempts the history keeps. */
  const HISTORY_SIZE: nat := 5

  /** What an attempt produced: the patient's name, or the error text shown for it. */
  datatype ScanOutcome = Found(patientName: string) | Failed(error: string)

  /**
   * One history entry. `id` and `timestamp` both come from the clock at the time of the
   * attempt (milliseconds; the ISO rendering of the timestamp is not modelled).
   */
  datatype ScanEntry = ScanEntry(id: nat, qrCodeId: string, timestamp: nat, outcome: ScanOutcome)

  /**
   * What the request brought back: the scan view of a 2xx response, or a rejection whose body
   * may carry an `error` text (none when the request failed without a response).
   */
  datatype ScanReply = Answered(view: ScanView) | Rejected(message: Option<string>)

  /** `error.response?.data?.error || 'Invalid QR Code'`: a missing or empty text falls back. */
  function ErrorText(message: Option<string>): (r: string)
    ensures r != []
    ensures message.Some? && message.value != [] ==> r == message.value
  {
    if message.Some? && message.value != [] then message.value else "Invalid QR Code"
  }

  /** The entry `handleScan` records for an attempt with input `code` at time `now`. */
  function EntryFor(code: string, now: nat, reply: ScanReply): ScanEntry
  {
    var outcome := match reply
      case Answered(view) => Found(view.user.name)
      case Rejected(message) => Failed(ErrorText(message));
    ScanEntry(now, code, now, outcome)
  }

  /** `[entry, ...prev.slice(0, 4)]`: the new entry first, then the newest four of `prev`. */
  function Pushed(entry: ScanEntry, prev: seq<ScanEntry>): (r: seq<ScanEntry>)
    ensures |r| == Min(HISTORY_SIZE, |prev| + 1)
    ensures r[0] == entry
    ensures forall i :: 1 <= i < |r| ==> r[i] == prev[i - 1]
  {
    [entry] + prev[..Min(HISTORY_SIZE - 1, |prev|)]
  }

  /** The newest `HISTORY_SIZE` attempts of a newest-first log. */
  function MostRecent(log: seq<ScanEntry>): seq<ScanEntry>
  {
    log[..Min(HISTORY_SIZE, |log|)]
  }

  /** Pushing onto the five newest attempts gives the five newest attempts of the longer log. */
  lemma PushedKeepsRecent(entry: ScanEntry, log: seq<ScanEntry>)
    ensures Pushed(entry, MostRecent(log)) == MostRecent([entry] + log)
  {
    var lhs := Pushed(entry, MostRecent(log));
    var rhs := MostRecent([entry] + log);
    assert |lhs| == |rhs|;
    forall i | 0 <= i < |lhs| ensures lhs[i] == rhs[i] {
      if i > 0 {
        assert lhs[i] == log[i - 1];
      }
    }
  }

  /**
   * The history never holds more than five entries, the newest first, and an attempt stays in
   * it until five newer ones have been made.
   */
  lemma HistoryIsRecentAttempts(log: seq<ScanEntry>, k: nat)
    ensures |MostRecent(log)| <= HISTORY_SIZE
    ensures k < |log| && k < HISTORY_SIZE ==> MostRecent(log)[k] == log[k]
    ensures k < |log| && HISTORY_SIZE <= k ==> |MostRecent(log)| == HISTORY_SIZE
  {
  }

  /** The error text a failed scan records when the backend refused the code. */
  function ServerMessage(e: QrError): string
  {
    match e
    case QrNotFound => "QR not found"
    case QrExpired => "QR has expired"
    case AlreadyScanned => "QR already scanned"
    case UserIdRequired => "User ID is required"
    case UserNotFound => "User not found"
    case InternalError => "Scan failed"
  }

  /** The reply the scanner sees for an outcome of the backend's scan handler. */
  function ReplyOf(outcome: Outcome<ScanView>): ScanReply
  {
    match outcome
    case Ok(view) => Answered(view)
    case Err(e) => Rejected(Some(ServerMessage(e)))
  }

  /**
   * An attempt against the backend records the redeemed patient's name on success and the
   * backend's own error text on a refusal, never the fallback text.
   */
  lemma EntryReportsServer(t: Tables, code: string, now: nat, at: nat)
    requires Consistent(t)
    ensures var outcome := ScanSpec(t, code, now).1;
      var entry := EntryFor(code, at, ReplyOf(outcome));
      && (outcome.Ok? ==> entry.outcome == Found(outcome.value.user.name))
      && (outcome.Err? ==> entry.outcome == Failed(ServerMessage(outcome.error)))
      && entry.outcome != Failed("Invalid QR Code")
  {
  }

  class QrScanner {
    /** The text field's value. */
    var qrCodeId: string
    /** The patient card on display, if any. */
    var scanResult: Option<ScanView>
    var loading: bool
    /** The visible history, newest first. */
    var scanHistory: seq<ScanEntry>
    /** Every attempt made on this page, newest first. */
    ghost var attempts: seq<ScanEntry>

    /** At rest no request is in flight, and the history is the newest attempts. */
    ghost predicate Valid()
      reads this
    {
      && !loading
      && scanHistory == MostRecent(attempts)
    }

    constructor ()
      ensures Valid()
      ensures qrCodeId == [] && scanResult == None && scanHistory == [] && attempts == []
    {
      qrCodeId := [];
      scanResult := None;
      loading := false;
      scanHistory := [];
      attempts := [];
    }

    /** The text field's `onChange`. */
    method SetInput(text: string)
      modifies this
      requires Valid()
      ensures Valid()
      ensures qrCodeId == text
      ensures scanResult == old(scanResult) && scanHistory == old(scanHistory) && attempts == old(attempts)
    {
      qrCodeId := text;
    }

    /**
     * `handleScan`. A blank id (all whitespace) is refused without a request and without any
     * change. Otherwise the id is sent as typed (`sent`), and `reply` is what came back: the
     * attempt goes to the head of the history; on success the card shows the patient and the
     * field is cleared, on failure the card is hidden and the field keeps the id.
     */
    method HandleScan(reply: ScanReply, now: nat) returns (sent: Option<string>)
      modifies this
      requires Valid()
      ensures Valid()
      ensures sent.None? <==> forall i :: 0 <= i < |old(qrCodeId)| ==> IsWhitespace(old(qrCodeId)[i])
      ensures sent.None? ==>
        && qrCodeId == old(qrCodeId) && scanResult == old(scanResult)
        && scanHistory == old(scanHistory) && attempts == old(attempts)
      ensures sent.Some? ==>
        && sent.value == old(qrCodeId)
        && attempts == [EntryFor(old(qrCodeId), now, reply)] + old(attempts)
        && scanHistory == Pushed(EntryFor(old(qrCodeId), now, reply), old(scanHistory))
      ensures sent.Some? && reply.Answered? ==> scanResult == Some(reply.view) && qrCodeId == []
      ensures sent.Some? && reply.Rejected? ==> scanResult == None && qrCodeId == old(qrCodeId)
    {
      TrimEmptyIffAllWhitespace(qrCodeId);
      if Trim(qrCodeId) == [] {
        return None;
      }
      loading := true;
      var code := qrCodeId;
      sent := Some(code);
      var entry := EntryFor(code, now, reply);
      PushedKeepsRecent(entry, attempts);
      scanResult := if reply.Answered? then Some(reply.view) else None;
      scanHistory := Pushed(entry, scanHistory);
      attempts := [entry] + attempts;
      if reply.Answered? {
        qrCodeId := [];
      }
      loading := false;
    }

    /** `clearScan`: hides the patient card; the field and the history stay as they are. */
    method ClearScan()
      modifies this
      requires Valid()
      ensures Valid()
      ensures scanResult == None
      ensures qrCodeId == old(qrCodeId) && scanHistory == old(scanHistory) && attempts == old(attempts)
    {
      scanResult := None;
    }
  }
}
