/** The upload form: client-side validation, the multipart form fields, and the audio MIME type. */
module Submission {
  import opened Wrappers
  import Strings

  /** The uploaded file; its bytes are opaque to the application and not modelled. */
  datatype Upload = Upload(name: string)

  /** The values of the upload form's widgets. */
  datatype Form = Form(
    file: Option<Upload>,
    title: string,
    company: string,
    entities: string,
    speakers: string,
    callType: string,
    timePeriod: string,
    cleanAudio: bool,
    cleanTranscript: bool,
    speakerDiarization: bool,
    factChecking: bool)

  /** The three validation messages, in the order they are checked. */
  datatype ValidationError = MissingFile | MissingTitle | MissingCompany

  /** What is handed to the HTTP wrapper for `POST /workflow`. */
  datatype Request = Request(fields: map<string, string>, fileName: string, mimeType: string)

  /** `str(b).lower()`. */
  function BoolField(b: bool): string
  {
    if b then "true" else "false"
  }

  /** The MIME type table with its default. */
  function MimeOf(ext: string): string
  {
    if ext == "mp4" then "audio/mp4"
    else if ext == "mp3" then "audio/mpeg"
    else "audio/mpeg"
  }

  /** `get_mime_type(filename)`: look the lower-cased text after the last "." up in the table. */
  function MimeType(fileName: string): (mime: string)
    ensures mime == "audio/mp4" <==> Strings.ToLower(Strings.AfterLast(fileName, '.')) == "mp4"
    ensures mime != "audio/mp4" ==> mime == "audio/mpeg"
    ensures '.' !in fileName ==> mime == MimeOf(Strings.ToLower(fileName))
  {
    Strings.AfterLastSpec(fileName, '.');
    MimeOf(Strings.ToLower(Strings.AfterLast(fileName, '.')))
  }

  /** The extension used is that after the LAST dot: "a.mp4.mp3" is sent as audio/mpeg. */
  lemma MimeTypeUsesLastExtension(stem: string, ext: string)
    requires '.' !in ext
    ensures MimeType(stem + "." + ext) == MimeOf(Strings.ToLower(ext))
  {
    Strings.AfterLastOfSuffix(stem, ext, '.');
  }

  /** The fields sent with every submission: the texts as entered, the four options as
      "true"/"false". */
  function RequiredFields(form: Form): (fields: map<string, string>)
    ensures forall k :: k in fields ==> k !in OptionalNames
  {
    map[
      "title" := form.title,
      "company" := form.company,
      "entities" := form.entities,
      "clean_audio" := BoolField(form.cleanAudio),
      "clean_transcript" := BoolField(form.cleanTranscript),
      "speaker_diarization" := BoolField(form.speakerDiarization),
      "fact_checking" := BoolField(form.factChecking)]
  }

  /** Every submission names the title, company and entities as entered and the four processing
      options serialised as lower-case "true" or "false". */
  lemma RequiredFieldsSpec(form: Form)
    ensures var fields := RequiredFields(form);
      fields.Keys == {"title", "company", "entities", "clean_audio", "clean_transcript",
                      "speaker_diarization", "fact_checking"} &&
      fields["title"] == form.title && fields["company"] == form.company &&
      fields["entities"] == form.entities &&
      (fields["clean_audio"] == "true" <==> form.cleanAudio) &&
      (fields["clean_transcript"] == "true" <==> form.cleanTranscript) &&
      (fields["speaker_diarization"] == "true" <==> form.speakerDiarization) &&
      (fields["fact_checking"] == "true" <==> form.factChecking) &&
      forall k :: k in fields && k !in {"title", "company", "entities"} ==> fields[k] in {"true", "false"}
  {
  }

  /** The fields sent only when their input is non-empty. */
  const OptionalNames: set<string> := {"call_type", "time_period", "speakers"}

  /** A form that passes validation. */
  predicate Complete(form: Form)
  {
    form.file.Some? && form.title != "" && form.company != ""
  }

  /** The submit button: validate the form, then build the form fields. `speakersJson` is the
      outcome of parsing and re-serialising the speakers text (None when it is not valid JSON). */
  method BuildRequest(form: Form, speakersJson: Option<string>) returns (r: Result<Request, ValidationError>)
    ensures r.Failure? <==> !Complete(form)
    ensures form.file.None? ==> r == Failure(MissingFile)
    ensures form.file.Some? && form.title == "" ==> r == Failure(MissingTitle)
    ensures form.file.Some? && form.title != "" && form.company == "" ==> r == Failure(MissingCompany)
    ensures r.Success? ==> r.value.fileName == form.file.value.name
    ensures r.Success? ==> r.value.mimeType == MimeType(form.file.value.name)
    ensures r.Success? ==> forall k :: k in RequiredFields(form) ==>
                             k in r.value.fields && r.value.fields[k] == RequiredFields(form)[k]
    ensures r.Success? ==> forall k :: k in r.value.fields ==> k in RequiredFields(form) || k in OptionalNames
    ensures r.Success? ==> ("call_type" in r.value.fields <==> form.callType != "")
    ensures r.Success? ==> ("time_period" in r.value.fields <==> form.timePeriod != "")
    ensures r.Success? ==> ("speakers" in r.value.fields <==> form.speakers != "" && speakersJson.Some?)
    ensures r.Success? && "call_type" in r.value.fields ==> r.value.fields["call_type"] == form.callType
    ensures r.Success? && "time_period" in r.value.fields ==> r.value.fields["time_period"] == form.timePeriod
    ensures r.Success? && "speakers" in r.value.fields ==> r.value.fields["speakers"] == speakersJson.value
  {
    if form.file.None? {
      return Failure(MissingFile);
    } else if form.title == "" {
      return Failure(MissingTitle);
    } else if form.company == "" {
      return Failure(MissingCompany);
    }
    var data := RequiredFields(form);
    if form.callType != "" {
      data := data["call_type" := form.callType];
    }
    if form.timePeriod != "" {
      data := data["time_period" := form.timePeriod];
    }
    if form.speakers != "" {
      if speakersJson.Some? {
        data := data["speakers" := speakersJson.value];
      }
    }
    var mime := MimeType(form.file.value.name);
    r := Success(Request(data, form.file.value.name, mime));
  }
}
