/** Job records and the list operations the history store performs on them: recording a job at the
    front of a capped list, the first-match status scan, and the sidebar's recent-jobs labels. */
module Jobs {
  import opened Wrappers

  /** One entry of a job history (streamlit_app.py:106-112). */
  datatype JobRecord = JobRecord(id: string, title: string, company: string, submittedAt: string, status: string)

  /** The fields of a submission response that the history keeps. */
  datatype JobData = JobData(id: string, title: string, company: string, status: string)

  /** Retention of the session list and of each archive bucket. */
  const SessionCap: nat := 20
  const ArchiveCap: nat := 100

  /** The record built from a submission response; `submittedAt` is the formatted clock reading. */
  function Entry(d: JobData, submittedAt: string): JobRecord
  {
    JobRecord(d.id, d.title, d.company, submittedAt, d.status)
  }

  /** `lst.insert(0, e)` followed by `lst = lst[:cap]`. */
  function PushFront(e: JobRecord, s: seq<JobRecord>, cap: nat): (r: seq<JobRecord>)
    ensures |r| == Min(|s| + 1, cap)
    ensures |r| > 0 ==> r[0] == e && r[1..] == s[..|r| - 1]
  {
    ([e] + s)[..Min(|s| + 1, cap)]
  }

  /** The list, newest first, that results from recording `es` one after another onto `s`. */
  function PushAll(es: seq<JobRecord>, s: seq<JobRecord>, cap: nat): seq<JobRecord>
  {
    if es == [] then s
    else PushFront(es[|es| - 1], PushAll(es[..|es| - 1], s, cap), cap)
  }

  /** `es` from its last element to its first. */
  function Reversed(es: seq<JobRecord>): (r: seq<JobRecord>)
    ensures |r| == |es|
    ensures forall i :: 0 <= i < |es| ==> r[i] == es[|es| - 1 - i]
  {
    if es == [] then [] else [es[|es| - 1]] + Reversed(es[..|es| - 1])
  }

  /** After recording one or more jobs, the list is the newest `cap` of all jobs seen, newest
      first: the last job recorded leads, and once more than `cap` are held the oldest fall off. */
  lemma {:induction false} PushAllNewestFirst(es: seq<JobRecord>, s: seq<JobRecord>, cap: nat)
    requires |es| > 0
    ensures PushAll(es, s, cap) == (Reversed(es) + s)[..Min(|es| + |s|, cap)]
  {
    var e, init := es[|es| - 1], es[..|es| - 1];
    assert Reversed(es) == [e] + Reversed(init);
    if init == [] {
      assert PushAll(init, s, cap) == s;
    } else {
      PushAllNewestFirst(init, s, cap);
      var p := PushAll(init, s, cap);
      var whole := Reversed(init) + s;
      assert [e] + whole == Reversed(es) + s;
      assert ([e] + p) == ([e] + whole)[..|p| + 1];
    }
  }

  /** Index of the first record whose id is `id`, if there is one. */
  function FirstIndexOf(s: seq<JobRecord>, id: string): (k: Option<nat>)
    ensures k.Some? ==> k.value < |s| && s[k.value].id == id &&
                        forall j :: 0 <= j < k.value ==> s[j].id != id
    ensures k.None? ==> forall j :: 0 <= j < |s| ==> s[j].id != id
  {
    if s == [] then None
    else if s[0].id == id then Some(0)
    else
      match FirstIndexOf(s[1..], id)
      case None => None
      case Some(k) => Some(k + 1)
  }

  /** The list after the status scan: the first record with this id gets the new status. */
  function WithStatus(s: seq<JobRecord>, id: string, status: string): seq<JobRecord>
  {
    match FirstIndexOf(s, id)
    case None => s
    case Some(k) => s[k := s[k].(status := status)]
  }

  /** The scan changes the status of the first matching record only; every other record, and every
      other field, stays as it was; with no match nothing changes. */
  lemma WithStatusSpec(s: seq<JobRecord>, id: string, status: string)
    ensures var r := WithStatus(s, id, status);
      |r| == |s| &&
      (forall i :: 0 <= i < |s| ==> r[i].id == s[i].id && r[i].title == s[i].title &&
                                    r[i].company == s[i].company && r[i].submittedAt == s[i].submittedAt) &&
      (forall i :: 0 <= i < |s| ==>
         r[i].status == if FirstIndexOf(s, id) == Some(i) then status else s[i].status) &&
      ((forall j :: 0 <= j < |s| ==> s[j].id != id) ==> r == s)
  {
  }

  /** The first match depends on the ids alone. */
  lemma {:induction false} FirstIndexOfSameIds(s: seq<JobRecord>, t: seq<JobRecord>, id: string)
    requires |s| == |t|
    requires forall i :: 0 <= i < |s| ==> s[i].id == t[i].id
    ensures FirstIndexOf(s, id) == FirstIndexOf(t, id)
  {
    if s != [] {
      FirstIndexOfSameIds(s[1..], t[1..], id);
    }
  }

  /** A later status update for the same job overrides an earlier one; in particular applying the
      same update twice is the same as applying it once. */
  lemma LastStatusWins(s: seq<JobRecord>, id: string, a: string, b: string)
    ensures WithStatus(WithStatus(s, id, a), id, b) == WithStatus(s, id, b)
  {
    var r := WithStatus(s, id, a);
    assert |r| == |s| && forall i :: 0 <= i < |s| ==> r[i].id == s[i].id;
    FirstIndexOfSameIds(r, s, id);
  }

  /** Recording a job onto a list and onto a longer list it begins, with a cap no larger, keeps
      the first a prefix of the second. */
  lemma PushFrontPrefix(e: JobRecord, s: seq<JobRecord>, t: seq<JobRecord>, c: nat, d: nat)
    requires s <= t && c <= d
    ensures PushFront(e, s, c) <= PushFront(e, t, d)
  {
    var r, q := PushFront(e, s, c), PushFront(e, t, d);
    assert r == q[..|r|] by {
      forall i | 0 <= i < |r| ensures r[i] == q[i] {
        if i > 0 {
          assert r[i] == s[i - 1] && q[i] == t[i - 1];
        }
      }
    }
  }

  /** A status scan of a list and of a longer list it begins hits the same record, when the
      shorter one holds the id at all. */
  lemma {:induction false} FirstIndexOfPrefix(s: seq<JobRecord>, t: seq<JobRecord>, id: string)
    requires s <= t
    ensures FirstIndexOf(s, id).Some? ==> FirstIndexOf(t, id) == FirstIndexOf(s, id)
    ensures FirstIndexOf(s, id).None? && FirstIndexOf(t, id).Some? ==> FirstIndexOf(t, id).value >= |s|
  {
    if s != [] {
      assert t[0] == s[0];
      if s[0].id != id {
        assert s[1..] <= t[1..];
        FirstIndexOfPrefix(s[1..], t[1..], id);
      }
    }
  }

  /** The scan preserves a prefix: the session list, a prefix of its bucket, stays one when both
      are scanned for the same id. */
  lemma WithStatusPrefix(s: seq<JobRecord>, t: seq<JobRecord>, id: string, status: string)
    requires s <= t
    ensures WithStatus(s, id, status) <= WithStatus(t, id, status)
  {
    FirstIndexOfPrefix(s, t, id);
    var r, q := WithStatus(s, id, status), WithStatus(t, id, status);
    assert |r| == |s| <= |t| == |q|;
    assert r == q[..|r|] by {
      forall i | 0 <= i < |r| ensures r[i] == q[i] {
        assert s[i] == t[i];
      }
    }
  }

  /** The source's `for job in lst: if job['id'] == job_id: job['status'] = status; break`. */
  method UpdateFirst(records: seq<JobRecord>, jobId: string, status: string) returns (updated: seq<JobRecord>)
    ensures updated == WithStatus(records, jobId, status)
  {
    updated := records;
    var i := 0;
    while i < |records|
      invariant 0 <= i <= |records|
      invariant updated == records
      invariant forall j :: 0 <= j < i ==> records[j].id != jobId
    {
      if records[i].id == jobId {
        updated := records[i := records[i].(status := status)];
        break;
      }
      i := i + 1;
    }
  }

  /** Longest title shown unabridged in the recent-jobs panel. */
  const TitleWidth: nat := 25

  /** `title[:25] + "..."` when the title is longer than 25 characters, the title otherwise. */
  function ShortTitle(title: string): string
  {
    if |title| > TitleWidth then title[..TitleWidth] + "..." else title
  }

  /** A shortened title never exceeds 28 characters, always starts with the title's first 25
      characters, and is the title itself exactly when it was short enough; a long one ends in "...". */
  lemma ShortTitleSpec(title: string)
    ensures var t := ShortTitle(title);
      |t| <= TitleWidth + 3 &&
      t[..Min(|title|, TitleWidth)] == title[..Min(|title|, TitleWidth)] &&
      (|title| <= TitleWidth ==> t == title) &&
      (|title| > TitleWidth ==> |t| == TitleWidth + 3 && t[TitleWidth..] == "...")
  {
  }

  /** Number of jobs the recent-jobs panel lists. */
  const RecentCount: nat := 5

  /** Expander labels of the recent-jobs panel: the newest five jobs of the session list, in
      order, each with its shortened title after a bullet. */
  function RecentJobLabels(history: seq<JobRecord>): (labels: seq<string>)
    ensures |labels| == Min(|history|, RecentCount)
    ensures forall i :: 0 <= i < |labels| ==> labels[i] == "\U{1F538} " + ShortTitle(history[i].title)
  {
    var shown := history[..Min(|history|, RecentCount)];
    seq(|shown|, i requires 0 <= i < |shown| => "\U{1F538} " + ShortTitle(shown[i].title))
  }
}
