/** The administrator's upload form: choosing a `.txt` file fills in the document
    name, and uploading sends the file's text and the trimmed name to the ingestion
    function. */
module Uploader {
  import opened Wrappers
  import opened JsString
  import Ingestion

  /** A chosen file: its name, and what reading it with `file.text()` gives, its
      text or the error's message. */
  datatype TextFile = TextFile(name: string, read: Result<string>)

  datatype UploaderState = UploaderState(file: Option<TextFile>, documentName: string, isUploading: bool)

  const TxtExtension: string := ".txt"
  const MinTextLength: nat := 100
  const WrongTypeError: string := "Пожалуйста, выберите файл в формате .txt"
  const MissingInputError: string := "Выберите файл и укажите название документа"
  const TooShortError: string := "Файл слишком короткий. Минимум 100 символов"
  const DefaultUploadError: string := "Не удалось загрузить документ"

  /** The toast the form shows. The success toast names the document as typed, not
      trimmed, and the number of chunks processed. */
  datatype Notice =
    | Silent
    | Rejected(description: string)
    | Uploaded(documentName: string, chunksProcessed: nat)
    | UploadFailed(description: string)

  /** `name.replace('.txt', '')`: the name without its first `.txt`. */
  function DerivedName(name: string): (r: string)
    ensures EndsWith(name, TxtExtension) ==> |r| == |name| - 4
  {
    assert EndsWith(name, TxtExtension) ==> OccursAt(name, TxtExtension, |name| - 4);
    ReplaceFirst(name, TxtExtension, "")
  }

  /** `handleFileChange`: a file whose name does not end in `.txt` (case-sensitive)
      is refused and nothing changes; otherwise the file is kept and the name field
      is filled with the derived name. Choosing nothing changes nothing. */
  function HandleFileChange(s: UploaderState, selected: Option<TextFile>): (r: (UploaderState, Notice))
    ensures selected.None? ==> r == (s, Silent)
    ensures selected.Some? && !EndsWith(selected.value.name, TxtExtension) ==> r == (s, Rejected(WrongTypeError))
    ensures selected.Some? && EndsWith(selected.value.name, TxtExtension) ==>
      && r.0.file == selected
      && r.0.documentName == DerivedName(selected.value.name)
      && |r.0.documentName| + 4 == |selected.value.name|
      && r.0.isUploading == s.isUploading
      && r.1 == Silent
  {
    match selected
    case None => (s, Silent)
    case Some(f) =>
      if !EndsWith(f.name, TxtExtension) then (s, Rejected(WrongTypeError))
      else (s.(file := Some(f), documentName := DerivedName(f.name)), Silent)
  }

  /** When the only `.txt` in the name is its extension, the derived name is the
      name without the extension. */
  lemma DerivedNameIsStem(name: string)
    requires EndsWith(name, TxtExtension)
    requires IndexOf(name, TxtExtension) == Some(|name| - 4)
    ensures DerivedName(name) == name[..|name| - 4]
  {
  }

  /** In general: when `.txt` first occurs at `i`, the derived name is the name with
      those four characters cut out, and whatever follows them kept. */
  lemma DerivedNameCutsFirstOccurrence(name: string, i: nat)
    requires OccursAt(name, TxtExtension, i)
    requires forall k :: 0 <= k < i ==> !OccursAt(name, TxtExtension, k)
    ensures DerivedName(name) == name[..i] + name[i + 4..]
  {
    var found := IndexOf(name, TxtExtension);
    assert found.Some? && found.value <= i;
    assert found == Some(i);
  }

  /** The first `.txt` is removed, not the extension: `a.txt.b.txt` becomes
      `a.b.txt` rather than `a.txt.b`. */
  lemma DerivedNameRemovesFirstOccurrence()
    ensures DerivedName("a.txt.b.txt") == "a.b.txt"
    ensures DerivedName("a.txt.b.txt") != "a.txt.b"
  {
    var s := "a.txt.b.txt";
    assert s[0..4] != TxtExtension by { assert s[0..4][0] == 'a'; }
    assert !OccursAt(s, TxtExtension, 0);
    assert s[1..5] == TxtExtension;
    assert OccursAt(s, TxtExtension, 1);
    assert IndexOf(s, TxtExtension) == Some(1) by {
      var r := IndexOf(s, TxtExtension);
      assert r.Some?;
      assert r.value <= 1;
    }
  }

  /** What an upload attempt did: the state after it, the request it sent to the
      ingestion function, whether the parent was told to refresh, and the toast. */
  datatype UploadOutcome = UploadOutcome(
    state: UploaderState,
    sent: Option<Ingestion.IngestRequest>,
    completed: bool,
    notice: Notice)

  /** The toast text for a caught error: its message, or the default when empty. */
  function FailureText(message: string): (r: string)
    ensures r != ""
    ensures message != "" ==> r == message
  {
    if message == "" then DefaultUploadError else message
  }

  /** `handleUpload`. `invoke` is the ingestion call: the number of chunks processed,
      or the error's message. */
  function HandleUpload(s: UploaderState, invoke: Ingestion.IngestRequest -> Result<nat>): (r: UploadOutcome)
    ensures s.file.None? || IsBlank(s.documentName) ==> r == UploadOutcome(s, None, false, Rejected(MissingInputError))
    ensures s.file.Some? && !IsBlank(s.documentName) ==> !r.state.isUploading
    ensures s.file.Some? && !IsBlank(s.documentName) && s.file.value.read.Failure? ==>
      r == UploadOutcome(s.(isUploading := false), None, false, UploadFailed(FailureText(s.file.value.read.error)))
    ensures s.file.Some? && !IsBlank(s.documentName) && s.file.value.read.Success?
            && |s.file.value.read.value| < MinTextLength ==>
      r == UploadOutcome(s.(isUploading := false), None, false, UploadFailed(TooShortError))
    ensures r.sent.Some? ==>
      && s.file.Some? && s.file.value.read.Success? && |s.file.value.read.value| >= MinTextLength
      && r.sent.value == Ingestion.IngestRequest(Some(s.file.value.read.value), Some(Trim(s.documentName)))
    ensures r.completed <==> r.sent.Some? && invoke(r.sent.value).Success?
    ensures r.completed ==> r.state == UploaderState(None, "", false) && r.notice == Uploaded(s.documentName, invoke(r.sent.value).value)
    ensures r.sent.Some? && !r.completed ==>
      && r.state == s.(isUploading := false)
      && r.notice.UploadFailed?
      && r.notice.description != ""
  {
    if s.file.None? || IsBlank(s.documentName) then UploadOutcome(s, None, false, Rejected(MissingInputError))
    else if s.file.value.read.Failure? then
      UploadOutcome(s.(isUploading := false), None, false, UploadFailed(FailureText(s.file.value.read.error)))
    else
      var text := s.file.value.read.value;
      if |text| < MinTextLength then UploadOutcome(s.(isUploading := false), None, false, UploadFailed(TooShortError))
      else
        var request := Ingestion.IngestRequest(Some(text), Some(Trim(s.documentName)));
        match invoke(request)
        case Success(n) => UploadOutcome(UploaderState(None, "", false), Some(request), true, Uploaded(s.documentName, n))
        case Failure(e) =>
          UploadOutcome(s.(isUploading := false), Some(request), false, UploadFailed(FailureText(e)))
  }

  /** The upload button is enabled when a file is chosen, the name is not blank and
      no upload is running. */
  predicate UploadEnabled(s: UploaderState)
  {
    s.file.Some? && !IsBlank(s.documentName) && !s.isUploading
  }

  /** Outside of a running upload, the button is enabled exactly when an upload
      would not be refused for a missing file or name. */
  lemma UploadEnabledIffNotRefused(s: UploaderState, invoke: Ingestion.IngestRequest -> Result<nat>)
    requires !s.isUploading
    ensures UploadEnabled(s) <==> HandleUpload(s, invoke).notice != Rejected(MissingInputError)
  {
  }

  /** A text of exactly 100 characters is long enough, one of 99 is not. */
  lemma LengthBoundary(fileName: string, text: string, name: string, invoke: Ingestion.IngestRequest -> Result<nat>)
    requires !IsBlank(name)
    ensures var s := UploaderState(Some(TextFile(fileName, Success(text))), name, false);
            |text| == MinTextLength ==> HandleUpload(s, invoke).sent.Some?
    ensures var s := UploaderState(Some(TextFile(fileName, Success(text))), name, false);
            |text| == MinTextLength - 1 ==> HandleUpload(s, invoke).sent.None?
  {
  }

  /** Every request the form sends passes the ingestion function's input check:
      both the text and the trimmed name are non-empty. */
  lemma SentRequestIsValid(s: UploaderState, invoke: Ingestion.IngestRequest -> Result<nat>)
    requires HandleUpload(s, invoke).sent.Some?
    ensures Present(HandleUpload(s, invoke).sent.value.pdfText)
    ensures Present(HandleUpload(s, invoke).sent.value.documentName)
  {
  }
}
