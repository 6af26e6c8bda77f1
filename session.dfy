/** The per-session state of the application (the token, the user id derived from it, the session's
    job list and the archive of every user's jobs) and the operations that change it. */
module Session {
  import opened Wrappers
  import opened Jobs
  import Submission
  import Responses

  /** A user's archive bucket; a user without one has no jobs. */
  function Bucket(archive: map<string, seq<JobRecord>>, user: string): seq<JobRecord>
  {
    if user in archive then archive[user] else []
  }

  /** What the submit button ends with. */
  datatype SubmitOutcome =
    | Rejected(error: Submission.ValidationError)  // no request was made
    | Replied(outcome: Responses.Outcome)

  /** What the status check ends with. */
  datatype CheckOutcome =
    | NoJobId                                       // "Please enter a job ID"; no request
    | Checked(outcome: Responses.Outcome)

  /** An HTTP reply that arrived: its status code and the body fields the flow reads. */
  datatype Reply<T> = Reply(statusCode: int, body: T)

  /** The reply to a status check: the status it reports. */
  type StatusReply = Reply<string>

  /** The reply to a submission: the job descriptor it carries. */
  type SubmitReply = Reply<JobData>

  /** The status code of a reply, None when no reply arrived. */
  function Code<T>(reply: Option<Reply<T>>): (code: Option<int>)
    ensures code.None? <==> reply.None?
    ensures reply.Some? ==> code.value == reply.value.statusCode
  {
    if reply.Some? then Some(reply.value.statusCode) else None
  }

  class SessionStore {
    var apiToken: Option<string>
    var currentUserHash: Option<string>
    var jobHistory: seq<JobRecord>
    var globalHistory: map<string, seq<JobRecord>>

    /** `get_user_hash`: a fixed, deterministic map from token to a 16-character user id (the
        first 16 hex digits of the token's MD5 digest, which this model leaves uninterpreted). */
    const userHash: string -> string

    ghost predicate Valid()
      reads this
    {
      (forall t :: |userHash(t)| == 16) &&
      currentUserHash == (if apiToken.Some? then Some(userHash(apiToken.value)) else None) &&
      |jobHistory| <= ArchiveCap &&
      forall u :: u in globalHistory ==> |globalHistory[u]| <= ArchiveCap
    }

    /** `if st.session_state.current_user_hash:` — a user id is set and non-empty. */
    predicate HasUser()
      reads this
    {
      currentUserHash.Some? && currentUserHash.value != ""
    }

    /** While a user id is set, the session list is a prefix of that user's bucket: it was copied
        from the bucket, or is empty, and every later change is made to both. */
    ghost predicate InSync()
      reads this
    {
      HasUser() ==> jobHistory <= Bucket(globalHistory, currentUserHash.value)
    }

    /** A user id is set exactly while a token is, and then it is the token's hash. */
    lemma HasUserIffAuthenticated()
      requires Valid()
      ensures HasUser() <==> apiToken.Some?
      ensures HasUser() ==> currentUserHash.value == userHash(apiToken.value)
    {
      if apiToken.Some? {
        assert |userHash(apiToken.value)| == 16;
      }
    }

    /** The initial session state: no token, no user id, an empty session list, an empty archive. */
    constructor (userHash: string -> string)
      requires forall t :: |userHash(t)| == 16
      ensures Valid()
      ensures apiToken == None && currentUserHash == None
      ensures jobHistory == [] && globalHistory == map[]
      ensures this.userHash == userHash
    {
      this.userHash := userHash;
      apiToken := None;
      currentUserHash := None;
      jobHistory := [];
      globalHistory := map[];
    }

    /** `load_user_history`: copy the current user's bucket into the session list; with no user
        or no bucket the session list is left as it is. */
    method LoadUserHistory()
      requires Valid()
      modifies this`jobHistory
      ensures Valid()
      ensures jobHistory == if HasUser() && currentUserHash.value in globalHistory
                            then globalHistory[currentUserHash.value] else old(jobHistory)
      ensures old(InSync()) ==> InSync()
    {
      if HasUser() && currentUserHash.value in globalHistory {
        jobHistory := globalHistory[currentUserHash.value];
      }
    }

    /** The Authenticate button: any non-empty token is accepted (no check with the server, no
        trimming); it sets the token and its user id and reloads that user's history. An empty
        token changes nothing. */
    method Authenticate(input: string) returns (ok: bool)
      requires Valid()
      modifies this`apiToken, this`currentUserHash, this`jobHistory
      ensures Valid()
      ensures ok <==> input != ""
      ensures ok ==> apiToken == Some(input) && currentUserHash == Some(userHash(input))
      ensures ok ==> jobHistory == if userHash(input) in globalHistory then globalHistory[userHash(input)]
                                   else old(jobHistory)
      ensures !ok ==> apiToken == old(apiToken) && currentUserHash == old(currentUserHash) &&
                      jobHistory == old(jobHistory)
      ensures old(apiToken.None? && jobHistory == []) ==> InSync()
      ensures !ok && old(InSync()) ==> InSync()
    {
      if input != "" {
        apiToken := Some(input);
        currentUserHash := Some(userHash(input));
        HasUserIffAuthenticated();
        LoadUserHistory();
        ok := true;
      } else {
        ok := false;
      }
    }

    /** The Logout button: forget the token, the user id and the session list; the archive stays. */
    method Logout()
      requires Valid()
      modifies this`apiToken, this`currentUserHash, this`jobHistory
      ensures Valid()
      ensures apiToken == None && currentUserHash == None && jobHistory == []
      ensures InSync()
    {
      apiToken := None;
      currentUserHash := None;
      jobHistory := [];
    }

    /** `save_job_to_history`: the new record goes to the front of the session list (kept to 20)
        and, when a user id is set, to the front of that user's bucket (created if missing, kept to
        100); every other bucket is untouched, and with no user id the archive is untouched. */
    method SaveJobToHistory(job: JobData, submittedAt: string)
      requires Valid()
      modifies this`jobHistory, this`globalHistory
      ensures Valid()
      ensures jobHistory == PushFront(Entry(job, submittedAt), old(jobHistory), SessionCap)
      ensures old(HasUser()) ==>
        globalHistory == old(globalHistory)[currentUserHash.value :=
          PushFront(Entry(job, submittedAt), Bucket(old(globalHistory), currentUserHash.value), ArchiveCap)]
      ensures !old(HasUser()) ==> globalHistory == old(globalHistory)
      ensures forall u :: u in old(globalHistory) ==> u in globalHistory
      ensures forall u :: u in globalHistory && !(HasUser() && u == currentUserHash.value) ==>
                u in old(globalHistory) && globalHistory[u] == old(globalHistory)[u]
      ensures old(InSync()) ==> InSync()
    {
      var entry := Entry(job, submittedAt);
      if HasUser() && InSync() {
        PushFrontPrefix(entry, jobHistory, Bucket(globalHistory, currentUserHash.value), SessionCap, ArchiveCap);
      }
      jobHistory := [entry] + jobHistory;
      jobHistory := jobHistory[..Min(|jobHistory|, SessionCap)];
      if HasUser() {
        var user := currentUserHash.value;
        if user !in globalHistory {
          globalHistory := globalHistory[user := []];
        }
        globalHistory := globalHistory[user := [entry] + globalHistory[user]];
        globalHistory := globalHistory[user := globalHistory[user][..Min(|globalHistory[user]|, ArchiveCap)]];
      }
    }

    /** The status-update scans after a successful check: the first record with this id in the
        session list, and the first in the current user's bucket if there is one, get the new
        status; nothing else changes, and with no match nothing changes at all. */
    method UpdateStatus(jobId: string, status: string)
      requires Valid()
      modifies this`jobHistory, this`globalHistory
      ensures Valid()
      ensures jobHistory == WithStatus(old(jobHistory), jobId, status)
      ensures old(HasUser() && currentUserHash.value in globalHistory) ==>
        globalHistory == old(globalHistory)[currentUserHash.value :=
          WithStatus(old(globalHistory)[currentUserHash.value], jobId, status)]
      ensures !old(HasUser() && currentUserHash.value in globalHistory) ==> globalHistory == old(globalHistory)
      ensures (forall j :: 0 <= j < |old(jobHistory)| ==> old(jobHistory)[j].id != jobId) ==>
                jobHistory == old(jobHistory)
      ensures old(InSync()) ==> InSync()
    {
      if HasUser() && InSync() {
        WithStatusPrefix(jobHistory, Bucket(globalHistory, currentUserHash.value), jobId, status);
      }
      WithStatusSpec(jobHistory, jobId, status);
      jobHistory := UpdateFirst(jobHistory, jobId, status);
      if HasUser() && currentUserHash.value in globalHistory {
        var user := currentUserHash.value;
        WithStatusSpec(globalHistory[user], jobId, status);
        var bucket := UpdateFirst(globalHistory[user], jobId, status);
        globalHistory := globalHistory[user := bucket];
      }
    }

    /** The submit button: validate and build the request; a rejected form leaves the state as it
        was. A reply with code 200 or 201 records the job it describes; any other reply, or none,
        changes nothing. `reply` is what the wrapper returns for the request (None when no reply
        arrived); `submittedAt` is the clock reading. */
    method Submit(form: Submission.Form, speakersJson: Option<string>, reply: Option<SubmitReply>,
                  submittedAt: string)
      returns (outcome: SubmitOutcome)
      requires Valid()
      modifies this`jobHistory, this`globalHistory
      ensures Valid()
      ensures outcome.Rejected? <==> !Submission.Complete(form)
      ensures form.file.None? ==> outcome == Rejected(Submission.MissingFile)
      ensures form.file.Some? && form.title == "" ==> outcome == Rejected(Submission.MissingTitle)
      ensures form.file.Some? && form.title != "" && form.company == "" ==>
                outcome == Rejected(Submission.MissingCompany)
      ensures Submission.Complete(form) ==>
                outcome == Replied(Responses.Classify(Code(reply), Responses.SubmitCodes, false))
      ensures outcome == Replied(Responses.Accepted) <==>
                Submission.Complete(form) && reply.Some? && reply.value.statusCode in Responses.SubmitCodes
      ensures outcome == Replied(Responses.ConnectionFailed) <==> Submission.Complete(form) && reply.None?
      ensures outcome == Replied(Responses.Accepted) ==>
                jobHistory == PushFront(Entry(reply.value.body, submittedAt), old(jobHistory), SessionCap) &&
                jobHistory[0].id == reply.value.body.id
      ensures outcome == Replied(Responses.Accepted) && old(HasUser()) ==>
                globalHistory == old(globalHistory)[currentUserHash.value :=
                  PushFront(Entry(reply.value.body, submittedAt), Bucket(old(globalHistory), currentUserHash.value),
                            ArchiveCap)]
      ensures outcome == Replied(Responses.Accepted) && !old(HasUser()) ==> globalHistory == old(globalHistory)
      ensures old(InSync()) ==> InSync()
      ensures outcome != Replied(Responses.Accepted) ==>
                jobHistory == old(jobHistory) && globalHistory == old(globalHistory)
    {
      var request := Submission.BuildRequest(form, speakersJson);
      if request.Failure? {
        return Rejected(request.error);
      }
      var result := Responses.Classify(Code(reply), Responses.SubmitCodes, false);
      if result == Responses.Accepted {
        SaveJobToHistory(reply.value.body, submittedAt);
      }
      outcome := Replied(result);
    }

    /** The status check: without a job id nothing is requested. A reply with code 200 updates
        both histories with the reported status, and the check repeats (after a pause) exactly
        when auto-refresh is on and that status is "processing", compared case-sensitively. Any
        other reply, or none, changes nothing and does not repeat. */
    method CheckStatus(jobId: string, autoRefresh: bool, reply: Option<StatusReply>)
      returns (outcome: CheckOutcome, again: bool)
      requires Valid()
      modifies this`jobHistory, this`globalHistory
      ensures Valid()
      ensures outcome == NoJobId <==> jobId == ""
      ensures outcome == Checked(Responses.Accepted) <==> jobId != "" && reply.Some? && reply.value.statusCode == 200
      ensures outcome == Checked(Responses.ConnectionFailed) <==> jobId != "" && reply.None?
      ensures jobId != "" ==>
                outcome == Checked(Responses.Classify(Code(reply), Responses.StatusCodes, false))
      ensures outcome == Checked(Responses.Accepted) ==>
                jobHistory == WithStatus(old(jobHistory), jobId, reply.value.body)
      ensures outcome == Checked(Responses.Accepted) && old(HasUser() && currentUserHash.value in globalHistory) ==>
                globalHistory == old(globalHistory)[currentUserHash.value :=
                  WithStatus(old(globalHistory)[currentUserHash.value], jobId, reply.value.body)]
      ensures outcome == Checked(Responses.Accepted) && !old(HasUser() && currentUserHash.value in globalHistory) ==>
                globalHistory == old(globalHistory)
      ensures outcome != Checked(Responses.Accepted) ==>
                jobHistory == old(jobHistory) && globalHistory == old(globalHistory)
      ensures old(InSync()) ==> InSync()
      ensures again <==> outcome == Checked(Responses.Accepted) && autoRefresh && reply.value.body == "processing"
    {
      if jobId == "" {
        return NoJobId, false;
      }
      var result := Responses.Classify(Code(reply), Responses.StatusCodes, false);
      again := false;
      if result == Responses.Accepted {
        UpdateStatus(jobId, reply.value.body);
        again := autoRefresh && reply.value.body == "processing";
      }
      outcome := Checked(result);
    }
  }

  /** Logging out and back in with the same token brings back that user's archived jobs (when
      there are any) and leaves the archive as it was. */
  method Relogin(store: SessionStore, token: string)
    requires store.Valid()
    requires token != ""
    modifies store
    ensures store.Valid()
    ensures store.apiToken == Some(token)
    ensures store.globalHistory == old(store.globalHistory)
    ensures store.jobHistory == Bucket(old(store.globalHistory), store.userHash(token))
    ensures store.InSync()
  {
    store.Logout();
    var ok := store.Authenticate(token);
  }
}
