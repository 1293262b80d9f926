/**
 * The entry normaliser: `parse_refresh_entry` flattens a raw dataset-refresh
 * entry and `parse_transaction_entry` a raw dataflow transaction.
 */
module Parser {
  import opened Wrappers

  /** One element of a refresh entry's `refreshAttempts` list. A member that is
      missing (or null) is None. */
  datatype Attempt = Attempt(attemptId: Option<int>, serviceExceptionJson: Option<string>)

  /** A raw refresh-history entry: its string-valued members by key, and its
      `refreshAttempts` member (None when missing or null). */
  datatype RefreshEntry = RefreshEntry(members: map<string, string>, refreshAttempts: Option<seq<Attempt>>)

  /** The flat record `parse_refresh_entry` returns. */
  datatype RefreshRecord = RefreshRecord(
    requestId: Option<string>,
    id: Option<string>,
    refreshType: Option<string>,
    startTime: Option<string>,
    endTime: Option<string>,
    status: Option<string>,
    errorMessage: string,
    attemptCount: nat)

  /** The record `parse_transaction_entry` returns: exactly these five keys. */
  datatype TransactionRecord = TransactionRecord(
    transactionId: Option<string>,
    requestId: Option<string>,
    startTime: Option<string>,
    endTime: Option<string>,
    status: Option<string>)

  /** `d.get(key)`: the member, or None when the key is absent. */
  function Get(members: map<string, string>, key: string): (r: Option<string>)
    ensures r.Some? <==> key in members
    ensures key in members ==> r.value == members[key]
  {
    if key in members then Some(members[key]) else None
  }

  /** `entry.get("refreshAttempts") or []`. */
  function Attempts(e: RefreshEntry): (r: seq<Attempt>)
    ensures e.refreshAttempts.Some? ==> r == e.refreshAttempts.value
    ensures e.refreshAttempts.None? ==> r == []
  {
    e.refreshAttempts.GetOr([])
  }

  /** The position of the first attempt whose `attemptId` is 1, if any. */
  function FirstAttemptOne(attempts: seq<Attempt>): (r: Option<nat>)
    ensures r.Some? ==> r.value < |attempts| && attempts[r.value].attemptId == Some(1)
    ensures r.Some? ==> forall j :: 0 <= j < r.value ==> attempts[j].attemptId != Some(1)
    ensures r.None? ==> forall j :: 0 <= j < |attempts| ==> attempts[j].attemptId != Some(1)
    decreases |attempts|
  {
    if attempts == [] then None
    else if attempts[0].attemptId == Some(1) then Some(0)
    else match FirstAttemptOne(attempts[1..])
      case None => None
      case Some(i) => Some(i + 1)
  }

  /** `first.get("serviceExceptionJson", "")`, where `first` is the chosen
      attempt or `{}`. */
  function SelectedError(attempts: seq<Attempt>): (r: string)
    ensures (forall k :: 0 <= k < |attempts| ==> attempts[k].attemptId != Some(1)) ==> r == ""
    ensures forall k :: 0 <= k < |attempts| && attempts[k].attemptId == Some(1) &&
                        (forall j :: 0 <= j < k ==> attempts[j].attemptId != Some(1)) ==>
                        r == attempts[k].serviceExceptionJson.GetOr("")
  {
    match FirstAttemptOne(attempts)
    case None => ""
    case Some(i) => attempts[i].serviceExceptionJson.GetOr("")
  }

  function ParseRefreshEntry(e: RefreshEntry): (r: RefreshRecord)
    ensures r.attemptCount == |Attempts(e)|
    ensures r.requestId == Get(e.members, "requestId") && r.id == Get(e.members, "id")
    ensures r.refreshType == Get(e.members, "refreshType") && r.status == Get(e.members, "status")
    ensures r.startTime == Get(e.members, "startTime") && r.endTime == Get(e.members, "endTime")
    ensures r.errorMessage == SelectedError(Attempts(e))
  {
    var attempts := Attempts(e);
    RefreshRecord(
      requestId := Get(e.members, "requestId"),
      id := Get(e.members, "id"),
      refreshType := Get(e.members, "refreshType"),
      startTime := Get(e.members, "startTime"),
      endTime := Get(e.members, "endTime"),
      status := Get(e.members, "status"),
      errorMessage := SelectedError(attempts),
      attemptCount := |attempts|)
  }

  /** The attempt with id 1 is chosen wherever it stands: attempts before it
      that have another id are skipped, and everything after it is ignored;
      all attempts are counted. */
  lemma SelectsFirstAttemptOne(members: map<string, string>, before: seq<Attempt>, chosen: Attempt, after: seq<Attempt>)
    requires forall k :: 0 <= k < |before| ==> before[k].attemptId != Some(1)
    requires chosen.attemptId == Some(1)
    ensures var r := ParseRefreshEntry(RefreshEntry(members, Some(before + [chosen] + after)));
            r.errorMessage == chosen.serviceExceptionJson.GetOr("") &&
            r.attemptCount == |before| + 1 + |after|
  {
    var attempts := before + [chosen] + after;
    assert attempts[|before|] == chosen;
    var i := FirstAttemptOne(attempts).value;
    assert i == |before|;
  }

  /** Without an attempt whose id is 1 the error message is empty; the
      attempts are still counted. */
  lemma NoAttemptOneGivesEmptyError(e: RefreshEntry)
    requires forall k :: 0 <= k < |Attempts(e)| ==> Attempts(e)[k].attemptId != Some(1)
    ensures ParseRefreshEntry(e).errorMessage == ""
    ensures ParseRefreshEntry(e).attemptCount == |Attempts(e)|
  {
  }

  /** A missing, null or empty `refreshAttempts` gives no attempts and no
      error message. */
  lemma MissingAttempts(members: map<string, string>, attempts: Option<seq<Attempt>>)
    requires attempts.None? || attempts == Some([])
    ensures ParseRefreshEntry(RefreshEntry(members, attempts)).attemptCount == 0
    ensures ParseRefreshEntry(RefreshEntry(members, attempts)).errorMessage == ""
  {
  }

  /** Worked example: the attempt with id 1 comes second. */
  lemma SecondPositionExample(members: map<string, string>)
    ensures var r := ParseRefreshEntry(RefreshEntry(members, Some([Attempt(Some(2), None), Attempt(Some(1), Some("E"))])));
            r.errorMessage == "E" && r.attemptCount == 2
  {
    SelectsFirstAttemptOne(members, [Attempt(Some(2), None)], Attempt(Some(1), Some("E")), []);
    assert [Attempt(Some(2), None)] + [Attempt(Some(1), Some("E"))] + [] == [Attempt(Some(2), None), Attempt(Some(1), Some("E"))];
  }

  /** Only the six copied members and the attempts matter to the result. */
  lemma RefreshOnlyReadsItsKeys(e1: RefreshEntry, e2: RefreshEntry)
    requires forall k :: k in {"requestId", "id", "refreshType", "startTime", "endTime", "status"} ==> Get(e1.members, k) == Get(e2.members, k)
    requires Attempts(e1) == Attempts(e2)
    ensures ParseRefreshEntry(e1) == ParseRefreshEntry(e2)
  {
    assert Get(e1.members, "requestId") == Get(e2.members, "requestId");
    assert Get(e1.members, "id") == Get(e2.members, "id");
    assert Get(e1.members, "refreshType") == Get(e2.members, "refreshType");
    assert Get(e1.members, "startTime") == Get(e2.members, "startTime");
    assert Get(e1.members, "endTime") == Get(e2.members, "endTime");
    assert Get(e1.members, "status") == Get(e2.members, "status");
  }

  function ParseTransactionEntry(members: map<string, string>): (r: TransactionRecord)
    ensures r.transactionId == Get(members, "transactionId") && r.requestId == Get(members, "requestId")
    ensures r.startTime == Get(members, "startTime") && r.endTime == Get(members, "endTime")
    ensures r.status == Get(members, "status")
  {
    TransactionRecord(
      transactionId := Get(members, "transactionId"),
      requestId := Get(members, "requestId"),
      startTime := Get(members, "startTime"),
      endTime := Get(members, "endTime"),
      status := Get(members, "status"))
  }

  /** Every member other than the five is dropped: entries that agree on the
      five keys give the same record. */
  lemma TransactionOnlyReadsItsKeys(m1: map<string, string>, m2: map<string, string>)
    requires forall k :: k in {"transactionId", "requestId", "startTime", "endTime", "status"} ==> Get(m1, k) == Get(m2, k)
    ensures ParseTransactionEntry(m1) == ParseTransactionEntry(m2)
  {
    assert Get(m1, "transactionId") == Get(m2, "transactionId");
    assert Get(m1, "requestId") == Get(m2, "requestId");
    assert Get(m1, "startTime") == Get(m2, "startTime");
    assert Get(m1, "endTime") == Get(m2, "endTime");
    assert Get(m1, "status") == Get(m2, "status");
  }
}
