/** The transcript export: the query string of removal options, the endpoint requested, and what is
    offered for download. */
module Export {
  import opened Wrappers
  import Strings
  import Responses

  /** The output formats offered by the format selector. */
  datatype Format = Json | Pdf | Docx | Txt | Html | Srt | Vtt
  {
    function Name(): (n: string)
      ensures n != [] && '.' !in n && '/' !in n
    {
      match this
      case Json => "json"
      case Pdf => "pdf"
      case Docx => "docx"
      case Txt => "txt"
      case Html => "html"
      case Srt => "srt"
      case Vtt => "vtt"
    }
  }

  /** The five "remove ..." checkboxes. */
  datatype Options = Options(
    removeTimestamps: bool,
    removeWordLevelTimestamps: bool,
    removeSpeakerLabels: bool,
    removeInsights: bool,
    removeKeywords: bool)

  /** The five query flags, in the order the export button appends them. */
  datatype Flag = RemoveTimestamps | RemoveWordLevelTimestamps | RemoveSpeakerLabels | RemoveInsights | RemoveKeywords
  {
    /** Position in the fixed order. */
    function Rank(): nat
    {
      match this
      case RemoveTimestamps => 0
      case RemoveWordLevelTimestamps => 1
      case RemoveSpeakerLabels => 2
      case RemoveInsights => 3
      case RemoveKeywords => 4
    }

    /** The `name=1` item sent for the flag. */
    function Param(): (p: string)
      ensures '&' !in p
    {
      match this
      case RemoveTimestamps => "remove_timestamps=1"
      case RemoveWordLevelTimestamps => "remove_word_level_timestamps=1"
      case RemoveSpeakerLabels => "remove_speaker_labels=1"
      case RemoveInsights => "remove_insights=1"
      case RemoveKeywords => "remove_keywords=1"
    }
  }

  function When(b: bool, f: Flag): seq<Flag>
  {
    if b then [f] else []
  }

  /** The flags of the ticked boxes, in the fixed order. */
  function FlagsFor(o: Options): seq<Flag>
  {
    When(o.removeTimestamps, RemoveTimestamps) +
    When(o.removeWordLevelTimestamps, RemoveWordLevelTimestamps) +
    When(o.removeSpeakerLabels, RemoveSpeakerLabels) +
    When(o.removeInsights, RemoveInsights) +
    When(o.removeKeywords, RemoveKeywords)
  }

  function Params(fs: seq<Flag>): (ps: seq<string>)
    ensures |ps| == |fs|
    ensures forall i :: 0 <= i < |fs| ==> ps[i] == fs[i].Param()
  {
    seq(|fs|, i requires 0 <= i < |fs| => fs[i].Param())
  }

  function ParamsFor(o: Options): seq<string>
  {
    Params(FlagsFor(o))
  }

  predicate AnySelected(o: Options)
  {
    o.removeTimestamps || o.removeWordLevelTimestamps || o.removeSpeakerLabels ||
    o.removeInsights || o.removeKeywords
  }

  /** Strictly increasing ranks, stated pair by pair of neighbours from the back. */
  predicate Increasing(fs: seq<Flag>)
  {
    |fs| < 2 || (fs[|fs| - 2].Rank() < fs[|fs| - 1].Rank() && Increasing(fs[..|fs| - 1]))
  }

  lemma {:induction false} IncreasingPairs(fs: seq<Flag>)
    requires Increasing(fs)
    ensures forall i, j :: 0 <= i < j < |fs| ==> fs[i].Rank() < fs[j].Rank()
  {
    if |fs| >= 2 {
      var init := fs[..|fs| - 1];
      IncreasingPairs(init);
      forall i, j | 0 <= i < j < |fs| ensures fs[i].Rank() < fs[j].Rank() {
        if j < |fs| - 1 {
          assert fs[i] == init[i] && fs[j] == init[j];
        } else if i < |fs| - 2 {
          assert fs[i] == init[i] && fs[|fs| - 2] == init[|fs| - 2];
        }
      }
    }
  }

  /** Appending a flag ranked above everything so far keeps the ranks increasing. */
  lemma WhenIncreasing(init: seq<Flag>, b: bool, f: Flag)
    requires Increasing(init) && (init != [] ==> init[|init| - 1].Rank() < f.Rank())
    ensures var r := init + When(b, f);
      Increasing(r) && (r != [] ==> r[|r| - 1].Rank() <= f.Rank())
  {
    var r := init + When(b, f);
    if b {
      assert r[..|r| - 1] == init;
    } else {
      assert r == init;
    }
  }

  /** The list is empty exactly when no box is ticked and each box contributes its flag exactly
      when ticked. */
  lemma FlagsForMembers(o: Options)
    ensures FlagsFor(o) == [] <==> !AnySelected(o)
    ensures RemoveTimestamps in FlagsFor(o) <==> o.removeTimestamps
    ensures RemoveWordLevelTimestamps in FlagsFor(o) <==> o.removeWordLevelTimestamps
    ensures RemoveSpeakerLabels in FlagsFor(o) <==> o.removeSpeakerLabels
    ensures RemoveInsights in FlagsFor(o) <==> o.removeInsights
    ensures RemoveKeywords in FlagsFor(o) <==> o.removeKeywords
  {
    var r1 := When(o.removeTimestamps, RemoveTimestamps);
    var r2 := r1 + When(o.removeWordLevelTimestamps, RemoveWordLevelTimestamps);
    var r3 := r2 + When(o.removeSpeakerLabels, RemoveSpeakerLabels);
    var r4 := r3 + When(o.removeInsights, RemoveInsights);
    var r5 := r4 + When(o.removeKeywords, RemoveKeywords);
    assert RemoveTimestamps in r1 <==> o.removeTimestamps;
    assert RemoveTimestamps in r5 <==> RemoveTimestamps in r1;
    assert RemoveWordLevelTimestamps !in r1;
    assert RemoveWordLevelTimestamps in r2 <==> o.removeWordLevelTimestamps;
    assert RemoveWordLevelTimestamps in r5 <==> RemoveWordLevelTimestamps in r2;
    assert RemoveSpeakerLabels !in r2;
    assert RemoveSpeakerLabels in r3 <==> o.removeSpeakerLabels;
    assert RemoveSpeakerLabels in r5 <==> RemoveSpeakerLabels in r3;
    assert RemoveInsights !in r3;
    assert RemoveInsights in r4 <==> o.removeInsights;
    assert RemoveInsights in r5 <==> RemoveInsights in r4;
    assert RemoveKeywords !in r4;
  }

  /** Appending the five pieces one at a time keeps the list increasing. */
  lemma FlagsForIncreasing(o: Options)
    ensures Increasing(FlagsFor(o))
  {
    var r1 := When(o.removeTimestamps, RemoveTimestamps);
    WhenIncreasing([], o.removeTimestamps, RemoveTimestamps);
    assert [] + r1 == r1;
    WhenIncreasing(r1, o.removeWordLevelTimestamps, RemoveWordLevelTimestamps);
    var r2 := r1 + When(o.removeWordLevelTimestamps, RemoveWordLevelTimestamps);
    WhenIncreasing(r2, o.removeSpeakerLabels, RemoveSpeakerLabels);
    var r3 := r2 + When(o.removeSpeakerLabels, RemoveSpeakerLabels);
    WhenIncreasing(r3, o.removeInsights, RemoveInsights);
    var r4 := r3 + When(o.removeInsights, RemoveInsights);
    WhenIncreasing(r4, o.removeKeywords, RemoveKeywords);
    assert FlagsFor(o) == r4 + When(o.removeKeywords, RemoveKeywords);
  }

  /** The flags come in the fixed order, each at most once. */
  lemma FlagsForOrder(o: Options)
    ensures forall i, j :: 0 <= i < j < |FlagsFor(o)| ==> FlagsFor(o)[i].Rank() < FlagsFor(o)[j].Rank()
  {
    FlagsForIncreasing(o);
    IncreasingPairs(FlagsFor(o));
  }

  lemma ParamsAppend(fs: seq<Flag>, f: Flag)
    ensures Params(fs + [f]) == Params(fs) + [f.Param()]
  {
  }

  /** Appending one parameter per set checkbox, as the export button does. */
  method BuildParams(o: Options) returns (params: seq<string>)
    ensures params == ParamsFor(o)
  {
    params := [];
    ghost var flags: seq<Flag> := [];
    if o.removeTimestamps {
      ParamsAppend(flags, RemoveTimestamps);
      params, flags := params + [RemoveTimestamps.Param()], flags + [RemoveTimestamps];
    }
    assert flags == When(o.removeTimestamps, RemoveTimestamps);
    if o.removeWordLevelTimestamps {
      ParamsAppend(flags, RemoveWordLevelTimestamps);
      params, flags := params + [RemoveWordLevelTimestamps.Param()], flags + [RemoveWordLevelTimestamps];
    }
    if o.removeSpeakerLabels {
      ParamsAppend(flags, RemoveSpeakerLabels);
      params, flags := params + [RemoveSpeakerLabels.Param()], flags + [RemoveSpeakerLabels];
    }
    if o.removeInsights {
      ParamsAppend(flags, RemoveInsights);
      params, flags := params + [RemoveInsights.Param()], flags + [RemoveInsights];
    }
    if o.removeKeywords {
      ParamsAppend(flags, RemoveKeywords);
      params, flags := params + [RemoveKeywords.Param()], flags + [RemoveKeywords];
    }
    assert flags == FlagsFor(o);
  }

  /** `"?" + "&".join(params) if params else ""`. */
  function QueryString(params: seq<string>): (q: string)
    ensures q == "" <==> params == []
    ensures q != "" ==> q[0] == '?'
  {
    if params == [] then "" else "?" + Strings.Join(params, "&")
  }

  /** The query string is empty exactly when no box is ticked; otherwise the server, splitting
      what follows "?" at "&", recovers exactly the parameters of the ticked boxes, in order. */
  lemma QueryStringOfOptions(o: Options)
    ensures var q := QueryString(ParamsFor(o));
      (q == "" <==> !AnySelected(o)) &&
      (q != "" ==> q[0] == '?' && Strings.Split(q[1..], '&') == ParamsFor(o))
  {
    FlagsForMembers(o);
    var ps := ParamsFor(o);
    if ps != [] {
      Strings.SplitJoin(ps, '&');
      assert QueryString(ps)[1..] == Strings.Join(ps, "&");
    }
  }

  lemma TwoFlagsParams()
    ensures ParamsFor(Options(true, false, false, false, true)) == ["remove_timestamps=1", "remove_keywords=1"]
  {
    assert FlagsFor(Options(true, false, false, false, true)) == [RemoveTimestamps, RemoveKeywords];
  }

  /** Ticking "remove timestamps" and "remove keywords" only. */
  lemma QueryStringTwoFlags()
    ensures QueryString(ParamsFor(Options(true, false, false, false, true))) ==
            "?remove_timestamps=1&remove_keywords=1"
  {
    TwoFlagsParams();
    var ps := ["remove_timestamps=1", "remove_keywords=1"];
    assert ps[1..] == ["remove_keywords=1"];
    assert Strings.Join(ps, "&") == "remove_timestamps=1" + "&" + "remove_keywords=1";
    assert "?" + ("remove_timestamps=1" + "&" + "remove_keywords=1") == "?remove_timestamps=1&remove_keywords=1";
  }

  /** Ticking "remove speaker labels" only, and ticking nothing. */
  lemma QueryStringOneOrNoFlag()
    ensures QueryString(ParamsFor(Options(false, false, true, false, false))) == "?remove_speaker_labels=1"
    ensures QueryString(ParamsFor(Options(false, false, false, false, false))) == ""
  {
    assert FlagsFor(Options(false, false, true, false, false)) == [RemoveSpeakerLabels];
    assert ParamsFor(Options(false, false, true, false, false)) == ["remove_speaker_labels=1"];
    assert FlagsFor(Options(false, false, false, false, false)) == [];
  }

  /** The export options as the form first shows them: only "remove word-level timestamps" ticked. */
  const DefaultOptions: Options := Options(false, true, false, false, false)

  /** The untouched export form asks for one removal only. */
  lemma DefaultParams()
    ensures ParamsFor(DefaultOptions) == [RemoveWordLevelTimestamps.Param()]
  {
    assert FlagsFor(DefaultOptions) == [RemoveWordLevelTimestamps];
  }

  /** The untouched export form asks for the transcript without word-level timestamps. */
  lemma QueryStringOfDefaults()
    ensures QueryString(ParamsFor(DefaultOptions)) == "?remove_word_level_timestamps=1"
  {
    DefaultParams();
    var p := RemoveWordLevelTimestamps.Param();
    assert Strings.Join([p], "&") == p;
  }

  /** `f"transcript_{job_id[:8]}_{timestamp}.{format}"`; `timestamp` is the formatted clock reading. */
  function DownloadName(jobId: string, format: Format, timestamp: string): string
  {
    "transcript_" + jobId[..Min(|jobId|, 8)] + "_" + timestamp + "." + format.Name()
  }

  /** Whatever the job id and the clock, the file's extension is the chosen format. */
  lemma DownloadNameExtension(jobId: string, format: Format, timestamp: string)
    ensures Strings.AfterLast(DownloadName(jobId, format, timestamp), '.') == format.Name()
    ensures DownloadName(jobId, format, timestamp)[..11] == "transcript_"
  {
    var stem := "transcript_" + jobId[..Min(|jobId|, 8)] + "_" + timestamp;
    assert DownloadName(jobId, format, timestamp) == stem + ['.'] + format.Name();
    Strings.AfterLastOfSuffix(stem, format.Name(), '.');
  }

  /** MIME type offered with the download: JSON and the text formats as text, PDF and DOCX as bytes. */
  function DownloadMime(format: Format): (mime: string)
    ensures mime == "application/octet-stream" <==> format == Pdf || format == Docx
    ensures mime == "application/json" <==> format == Json
    ensures mime == "text/plain" <==> format.Txt? || format.Html? || format.Srt? || format.Vtt?
  {
    if format == Json then "application/json"
    else if format == Pdf || format == Docx then "application/octet-stream"
    else "text/plain"
  }

  /** What the export flow ends with. */
  datatype Download =
    | NoJobId                                   // "Please enter a job ID"; no request
    | Ready(fileName: string, mimeType: string) // offered for saving
    | Failed(outcome: Responses.Outcome)        // not found, API error or no connection

  /** The download button: the endpoint requested (none without a job id) and the result, given
      the status code of the reply (None when no reply arrived). */
  method ExportTranscript(jobId: string, format: Format, o: Options, timestamp: string, reply: Option<int>)
    returns (endpoint: Option<string>, result: Download)
    ensures endpoint.None? <==> jobId == ""
    ensures endpoint.None? ==> result == NoJobId
    ensures endpoint.Some? ==>
      endpoint.value == "/transcript/export/" + jobId + "/" + format.Name() + QueryString(ParamsFor(o))
    ensures result.Ready? <==> jobId != "" && reply == Some(200)
    ensures result.Ready? ==> result == Ready(DownloadName(jobId, format, timestamp), DownloadMime(format))
    ensures jobId != "" && reply != Some(200) ==> result == Failed(Responses.Classify(reply, Responses.ExportCodes, true))
    ensures result == Failed(Responses.NotFound) <==> jobId != "" && reply == Some(404)
    ensures result == Failed(Responses.ConnectionFailed) <==> jobId != "" && reply.None?
  {
    if jobId == "" {
      return None, NoJobId;
    }
    var params := BuildParams(o);
    var query := QueryString(params);
    endpoint := Some("/transcript/export/" + jobId + "/" + format.Name() + query);
    var outcome := Responses.Classify(reply, Responses.ExportCodes, true);
    if outcome == Responses.Accepted {
      result := Ready(DownloadName(jobId, format, timestamp), DownloadMime(format));
    } else {
      result := Failed(outcome);
    }
  }
}
