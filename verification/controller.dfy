/**
  The upload controller of script.js: the selected file, the submit button,
  the drop zone / selected-file blocks, the status area with its texts, and
  the transitions handleFileSelect, clearFile, the show* helpers and
  handleSubmit. The network exchange is an input Outcome, so every
  transition is a pure function of the state before it.
 */
module Controller {
  import opened Wrappers
  import opened Decimal
  import opened Plural
  import opened Validation
  import opened StatusPanels

  const FormatMessage: string := "Допустимы только .xlsx или .xls файлы"
  const SizeMessage: string := "Файл не должен превышать 10 МБ"
  const NoFileMessage: string := "Пожалуйста, выберите файл"
  const UnknownErrorMessage: string := "Произошла неизвестная ошибка"
  const NetworkMessage: string := "Не удалось отправить файл. Проверьте подключение к интернету и попробуйте снова."
  const SuccessPrefix: string := "Готово! Успешно создано "

  /**
    The size label under the file name. Zero bytes is the fixed text
    "0 Байт"; any other size goes through logarithm and rounding arithmetic
    on floating point numbers, which is kept abstract as the byte count it
    was computed from. Blank is the label before any file was shown.
   */
  datatype SizeText = Blank | ZeroBytes | Scaled(bytes: nat)

  function FormatFileSize(bytes: nat): (t: SizeText)
    ensures t == ZeroBytes <==> bytes == 0
    ensures t.Scaled? <==> bytes > 0
    ensures t.Scaled? ==> t.bytes == bytes
  {
    if bytes == 0 then ZeroBytes else Scaled(bytes)
  }

  /** The parsed JSON reply; `success` is the truthiness of its field, absent fields are None. */
  datatype Body = Body(success: bool, message: Option<string>, documentsCount: Option<SafeInt>, folderUrl: Option<string>)

  /** How the one request of a submission settles. */
  datatype Outcome =
    | TransportFail           // fetch rejected
    | HttpNotOk(code: int)    // a reply whose status is outside 200-299
    | ParseFail               // a reply that response.json() cannot read, or a JSON null
    | Parsed(body: Body)

  /** Everything script.js keeps between events, plus the callbacks the event loop still owes it. */
  datatype Ui = Ui(
    selected: Option<File>,
    submitDisabled: bool,
    dropZoneShown: bool,
    fileBlockShown: bool,
    nameLabel: string,
    sizeLabel: SizeText,
    status: StatusView,
    errorText: string,
    successText: string,
    folderLink: string,
    pendingHides: nat,    // 10 s error auto-hide timers not yet fired
    pendingClears: nat,   // 1 s post-success clearFile timers not yet fired
    inFlight: nat         // submissions whose request has not settled
  )

  /** The part of the page about the chosen file: untouched by every status transition. */
  predicate SameFileArea(a: Ui, b: Ui)
  {
    && a.selected == b.selected
    && a.submitDisabled == b.submitDisabled
    && a.dropZoneShown == b.dropZoneShown
    && a.fileBlockShown == b.fileBlockShown
    && a.nameLabel == b.nameLabel
    && a.sizeLabel == b.sizeLabel
  }

  /** The texts of the status panels and the folder link. */
  predicate SameTexts(a: Ui, b: Ui)
  {
    a.errorText == b.errorText && a.successText == b.successText && a.folderLink == b.folderLink
  }

  predicate SameCallbacks(a: Ui, b: Ui)
  {
    a.pendingHides == b.pendingHides && a.pendingClears == b.pendingClears && a.inFlight == b.inFlight
  }

  // ---------------------------------------------------------------- status

  function HideAllStatus(s: Ui): (r: Ui)
    ensures Hidden(r.status)
    ensures SameFileArea(r, s) && SameTexts(r, s) && SameCallbacks(r, s)
  {
    s.(status := HideAll(s.status))
  }

  function ShowLoading(s: Ui): (r: Ui)
    ensures ShowsOnly(r.status, Loading)
    ensures SameFileArea(r, s) && SameTexts(r, s) && SameCallbacks(r, s)
  {
    s.(status := Show(s.status, Loading))
  }

  /** Shows `message` in the error panel and schedules one more 10 s auto-hide. */
  function ShowError(s: Ui, message: string): (r: Ui)
    ensures ShowsOnly(r.status, Error)
    ensures r.errorText == message
    ensures r.successText == s.successText && r.folderLink == s.folderLink
    ensures r.pendingHides == s.pendingHides + 1
    ensures r.pendingClears == s.pendingClears && r.inFlight == s.inFlight
    ensures SameFileArea(r, s)
  {
    s.(status := Show(s.status, Error), errorText := message, pendingHides := s.pendingHides + 1)
  }

  /** The count as the template literal prints it: `undefined` when the reply has none. */
  function CountText(count: Option<SafeInt>): (t: string)
    ensures count.Some? ==> ParseInt(t) == Some(count.value as int)
    ensures count.None? ==> ParseInt(t) == None
  {
    match count
    case Some(n) => ParseIntText(n); IntText(n)
    case None => assert "undefined"[0] == 'u'; "undefined"
  }

  /** getDocumentWord of the count; `undefined % 10` is NaN, which fails every test, so "документов". */
  function WordFor(count: Option<SafeInt>): (w: string)
    ensures w == One || w == Few || w == Many
    ensures count.None? ==> w == Many
    ensures count.Some? && count.value >= 0 ==> w == WordForNumeral(NatText(count.value))
    ensures ' ' !in w
  {
    match count
    case Some(n) =>
      if n >= 0 then DocumentWordMatchesNumeral(n); DocumentWord(n) else DocumentWord(n)
    case None => Many
  }

  /** The success message built from the reply's document count. */
  function SuccessText(count: Option<SafeInt>): (t: string)
    ensures |t| > |SuccessPrefix| && t[..|SuccessPrefix|] == SuccessPrefix && t[|t| - 1] == '.'
    ensures ReadSuccessWord(t) == Some(WordFor(count))
  {
    var num := CountText(count);
    var word := WordFor(count);
    var t := SuccessPrefix + (num + " " + word) + ".";
    assert ' ' !in num by {
      if count.None? {
        assert forall i :: 0 <= i < |num| ==> num[i] != ' ';
      }
    }
    assert t[..|SuccessPrefix|] == SuccessPrefix;
    assert t[|SuccessPrefix|..|t| - 1] == num + " " + word;
    FirstSpaceAfter(num, word);
    assert (num + " " + word)[|num| + 1..] == word;
    t
  }

  /** Assigning `undefined` to the link's href stores the text "undefined". */
  function Href(url: Option<string>): (h: string)
    ensures url.Some? ==> h == url.value
    ensures url.None? ==> h == "undefined"
  {
    url.GetOr("undefined")
  }

  /** Shows the success panel for `body` and schedules one more 1 s clearFile. */
  function ShowSuccess(s: Ui, body: Body): (r: Ui)
    ensures ShowsOnly(r.status, Success)
    ensures r.successText == SuccessText(body.documentsCount)
    ensures r.folderLink == Href(body.folderUrl)
    ensures r.errorText == s.errorText
    ensures r.pendingClears == s.pendingClears + 1
    ensures r.pendingHides == s.pendingHides && r.inFlight == s.inFlight
    ensures SameFileArea(r, s)
  {
    s.(status := Show(s.status, Success), successText := SuccessText(body.documentsCount),
       folderLink := Href(body.folderUrl), pendingClears := s.pendingClears + 1)
  }

  // ---------------------------------------------------------------- success text

  /** Index of the first space in `s`, or |s| when there is none. */
  function FirstSpace(s: string): (i: nat)
    ensures i <= |s|
    ensures forall k :: 0 <= k < i ==> s[k] != ' '
    ensures i < |s| ==> s[i] == ' '
    decreases |s|
  {
    if |s| == 0 || s[0] == ' ' then 0 else 1 + FirstSpace(s[1..])
  }

  /**
    A success message split at the first space between the fixed prefix and
    the final dot: the text standing for the count, and the word after it.
   */
  function SuccessParts(t: string): Option<(string, string)>
  {
    if |t| < |SuccessPrefix| + 1 || t[..|SuccessPrefix|] != SuccessPrefix || t[|t| - 1] != '.' then None
    else
      var middle := t[|SuccessPrefix|..|t| - 1];
      var cut := FirstSpace(middle);
      if cut == |middle| then None else Some((middle[..cut], middle[cut + 1..]))
  }

  /** The word a reader finds after the count of a success message. */
  function ReadSuccessWord(t: string): Option<string>
  {
    match SuccessParts(t)
    case Some((_, word)) => Some(word)
    case None => None
  }

  /** What a reader takes from a success message: the count and the word after it. */
  function ReadSuccessText(t: string): Option<(int, string)>
  {
    match SuccessParts(t)
    case Some((numeral, word)) =>
      (match ParseInt(numeral)
       case Some(n) => Some((n, word))
       case None => None)
    case None => None
  }

  /** The first space of `a + " " + b` is the one after `a` when `a` has none. */
  lemma FirstSpaceAfter(a: string, b: string)
    requires ' ' !in a
    ensures FirstSpace(a + " " + b) == |a|
  {
    var s := a + " " + b;
    assert forall k :: 0 <= k < |a| ==> s[k] == a[k];
    assert s[|a|] == ' ';
  }

  /**
    The success message names the reply's document count followed by the
    word form for it: reading the message back gives both.
   */
  lemma SuccessTextNamesCount(n: SafeInt)
    ensures ReadSuccessText(SuccessText(Some(n))) == Some((n as int, DocumentWord(n)))
  {
    var num := CountText(Some(n));
    var word := DocumentWord(n);
    var t := SuccessText(Some(n));
    assert t == SuccessPrefix + (num + " " + word) + ".";
    assert t[..|SuccessPrefix|] == SuccessPrefix;
    var middle := t[|SuccessPrefix|..|t| - 1];
    assert middle == num + " " + word;
    FirstSpaceAfter(num, word);
    assert middle[..|num|] == num;
    assert middle[|num| + 1..] == word;
  }

  /** A reply without a count gives a message with no readable count. */
  lemma SuccessTextWithoutCount()
    ensures ReadSuccessText(SuccessText(None)) == None
  {
    var t := SuccessText(None);
    var middle := t[|SuccessPrefix|..|t| - 1];
    assert middle == "undefined" + " " + Many;
    FirstSpaceAfter("undefined", Many);
    assert middle[..9] == "undefined";
  }

  // ---------------------------------------------------------------- file

  /**
    handleFileSelect: the format check, then the size check; only a file
    passing both is stored, shown, and enables the submit button.
   */
  function HandleFileSelect(s: Ui, f: File): (r: Ui)
    ensures Accepts(f) ==>
      && r.selected == Some(f) && !r.submitDisabled
      && !r.dropZoneShown && r.fileBlockShown
      && r.nameLabel == f.name && r.sizeLabel == FormatFileSize(f.size)
      && Hidden(r.status) && SameTexts(r, s) && SameCallbacks(r, s)
    ensures !Accepts(f) ==>
      && SameFileArea(r, s)
      && ShowsOnly(r.status, Error)
      && r.errorText == (if HasSpreadsheetExtension(f.name) then SizeMessage else FormatMessage)
      && r.successText == s.successText && r.folderLink == s.folderLink
      && r.pendingHides == s.pendingHides + 1
      && r.pendingClears == s.pendingClears && r.inFlight == s.inFlight
  {
    match Validate(f)
    case Rejected(WrongFormat) => ShowError(s, FormatMessage)
    case Rejected(TooLarge) => ShowError(s, SizeMessage)
    case Accepted =>
      HideAllStatus(s.(selected := Some(f), nameLabel := f.name, sizeLabel := FormatFileSize(f.size),
                       dropZoneShown := false, fileBlockShown := true, submitDisabled := false))
  }

  /** clearFile: drops the selection, brings back the drop zone, disables submit, hides the status. */
  function ClearFile(s: Ui): (r: Ui)
    ensures r.selected.None? && r.submitDisabled
    ensures r.dropZoneShown && !r.fileBlockShown
    ensures Hidden(r.status)
    ensures r.nameLabel == s.nameLabel && r.sizeLabel == s.sizeLabel
    ensures SameTexts(r, s) && SameCallbacks(r, s)
  {
    HideAllStatus(s.(selected := None, dropZoneShown := true, fileBlockShown := false, submitDisabled := true))
  }

  // ---------------------------------------------------------------- submit

  /** The part of handleSubmit before the request: loading panel, button disabled, one more request in flight. */
  function SubmitStart(s: Ui): (r: Ui)
    requires s.selected.Some?
    ensures ShowsOnly(r.status, Loading) && r.submitDisabled
    ensures r.selected == s.selected && r.dropZoneShown == s.dropZoneShown && r.fileBlockShown == s.fileBlockShown
    ensures r.nameLabel == s.nameLabel && r.sizeLabel == s.sizeLabel
    ensures r.inFlight == s.inFlight + 1
    ensures SameTexts(r, s) && r.pendingHides == s.pendingHides && r.pendingClears == s.pendingClears
  {
    ShowLoading(s).(submitDisabled := true, inFlight := s.inFlight + 1)
  }

  /** What a click does before any awaiting: the missing-file error, or the start of a submission. */
  function SubmitClick(s: Ui): (r: Ui)
    ensures s.selected.None? ==>
      && ShowsOnly(r.status, Error) && r.errorText == NoFileMessage
      && SameFileArea(r, s)
      && r.successText == s.successText && r.folderLink == s.folderLink
      && r.pendingHides == s.pendingHides + 1
      && r.pendingClears == s.pendingClears && r.inFlight == s.inFlight
    ensures s.selected.Some? ==>
      && ShowsOnly(r.status, Loading) && r.submitDisabled
      && r.selected == s.selected
      && r.dropZoneShown == s.dropZoneShown && r.fileBlockShown == s.fileBlockShown
      && r.nameLabel == s.nameLabel && r.sizeLabel == s.sizeLabel
      && SameTexts(r, s)
      && r.pendingHides == s.pendingHides && r.pendingClears == s.pendingClears
      && r.inFlight == s.inFlight + 1
  {
    if s.selected.None? then ShowError(s, NoFileMessage) else SubmitStart(s)
  }

  /** A reply that counts as success: parsed, with a truthy `success` field. */
  predicate Succeeded(o: Outcome)
  {
    o.Parsed? && o.body.success
  }

  /** The empty string is falsy, so `result.message || fallback` skips it too. */
  predicate Truthy(m: Option<string>)
  {
    m.Some? && m.value != ""
  }

  /**
    The error text for an outcome that is not a success. A non-OK status is
    thrown as an Error naming the code, but the catch replaces that text with
    the connectivity message, as it does for transport and parse failures.
   */
  function FailureText(o: Outcome): (t: string)
    requires !Succeeded(o)
    ensures o.Parsed? && Truthy(o.body.message) ==> t == o.body.message.value
    ensures o.Parsed? && !Truthy(o.body.message) ==> t == UnknownErrorMessage
    ensures !o.Parsed? ==> t == NetworkMessage
  {
    match o
    case Parsed(body) => if Truthy(body.message) then body.message.value else UnknownErrorMessage
    case _ => NetworkMessage
  }

  /** The continuation after the await: map the outcome to a panel, then the `finally` re-enables submit. */
  function SubmitSettle(s: Ui, o: Outcome): (r: Ui)
    requires s.inFlight > 0
    ensures !r.submitDisabled
    ensures r.inFlight == s.inFlight - 1
    ensures r.selected == s.selected && r.dropZoneShown == s.dropZoneShown && r.fileBlockShown == s.fileBlockShown
    ensures r.nameLabel == s.nameLabel && r.sizeLabel == s.sizeLabel
    ensures Succeeded(o) ==>
      && ShowsOnly(r.status, Success)
      && r.successText == SuccessText(o.body.documentsCount)
      && r.folderLink == Href(o.body.folderUrl)
      && r.errorText == s.errorText
      && r.pendingClears == s.pendingClears + 1 && r.pendingHides == s.pendingHides
    ensures !Succeeded(o) ==>
      && ShowsOnly(r.status, Error)
      && r.errorText == FailureText(o)
      && r.successText == s.successText && r.folderLink == s.folderLink
      && r.pendingHides == s.pendingHides + 1 && r.pendingClears == s.pendingClears
  {
    var shown := if Succeeded(o) then ShowSuccess(s, o.body) else ShowError(s, FailureText(o));
    shown.(submitDisabled := false, inFlight := s.inFlight - 1)
  }

  /** handleSubmit when nothing else happens while the request is out. */
  function HandleSubmit(s: Ui, o: Outcome): (r: Ui)
    ensures s.selected.None? ==>
      && ShowsOnly(r.status, Error) && r.errorText == NoFileMessage
      && SameFileArea(r, s)
      && r.successText == s.successText && r.folderLink == s.folderLink
      && r.pendingHides == s.pendingHides + 1
      && r.pendingClears == s.pendingClears && r.inFlight == s.inFlight
    ensures s.selected.Some? ==>
      && !r.submitDisabled && r.selected == s.selected
      && r.dropZoneShown == s.dropZoneShown && r.fileBlockShown == s.fileBlockShown
      && r.nameLabel == s.nameLabel && r.sizeLabel == s.sizeLabel
      && r.inFlight == s.inFlight
    ensures s.selected.Some? && Succeeded(o) ==>
      && ShowsOnly(r.status, Success)
      && r.successText == SuccessText(o.body.documentsCount)
      && r.folderLink == Href(o.body.folderUrl)
      && r.errorText == s.errorText
      && r.pendingClears == s.pendingClears + 1 && r.pendingHides == s.pendingHides
    ensures s.selected.Some? && !Succeeded(o) ==>
      && ShowsOnly(r.status, Error)
      && r.errorText == FailureText(o)
      && r.successText == s.successText && r.folderLink == s.folderLink
      && r.pendingHides == s.pendingHides + 1 && r.pendingClears == s.pendingClears
  {
    if s.selected.None? then ShowError(s, NoFileMessage) else SubmitSettle(SubmitStart(s), o)
  }

  /** The status code of a failed reply never reaches the page: every non-success failure reads the same. */
  lemma HttpCodeDiscarded(s: Ui, code: int)
    requires s.inFlight > 0
    ensures SubmitSettle(s, HttpNotOk(code)) == SubmitSettle(s, TransportFail) == SubmitSettle(s, ParseFail)
  {
  }

  /** A success shown after an error leaves only the success panel. */
  lemma ErrorThenSuccess(s: Ui, message: string, body: Body)
    ensures Visible(ShowSuccess(ShowError(s, message), body).status) == {Success}
  {
  }

  /** Clearing twice is clearing once. */
  lemma ClearFileIdempotent(s: Ui)
    ensures ClearFile(ClearFile(s)) == ClearFile(s)
  {
  }
}
