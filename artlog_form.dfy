/** The artlog post form: which files it accepts, the uploads it records,
    and the checks that turn its state into the data of an artlog post. */
module ArtlogForm {
  import opened Common

  const MaxTimelapseBytes := 50 * 1024 * 1024

  /** A file the browser hands over */
  datatype FileInfo = FileInfo(name: string, mime: string, size: nat)

  /** A time box: the number 0 it starts with, or the text typed into it
      (a number input yields "" or a string of digits) */
  datatype TimeBox = Untouched | Typed(text: string)

  predicate AllDigits(s: string)
  {
    forall i :: 0 <= i < |s| ==> IsDigit(s[i])
  }

  /** The value of a string of decimal digits */
  function DecimalValue(s: string): nat
    requires AllDigits(s)
  {
    if s == [] then 0 else 10 * DecimalValue(s[..|s| - 1]) + (s[|s| - 1] as int - '0' as int)
  }

  /** parseInt of the box (None for NaN) */
  function ParseInt(box: TimeBox): Option<nat>
  {
    match box
    case Untouched => Some(0)
    case Typed(text) => if text != "" && AllDigits(text) then Some(DecimalValue(text)) else None
  }

  /** box > 0 */
  predicate Positive(box: TimeBox)
  {
    ParseInt(box).Some? && ParseInt(box).value > 0
  }

  /** box === 0: only the untouched number is strictly equal to 0 */
  predicate StrictlyZero(box: TimeBox)
  {
    box.Untouched?
  }

  /** The timelapse input's test: an MP4 or QuickTime video of at most 50 MiB */
  predicate TimelapseAccepted(f: FileInfo)
  {
    (f.mime == "video/mp4" || f.mime == "video/quicktime") && f.size <= MaxTimelapseBytes
  }

  /** The screenshot input's test: any image type */
  predicate ScreenshotAccepted(f: FileInfo)
  {
    StartsWith(f.mime, "image/")
  }

  /** The state getFormData and isValid read */
  datatype FormState = FormState(
    content: string, timelapse: Option<FileInfo>, githubLink: string, screenshot: Option<FileInfo>,
    hours: TimeBox, minutes: TimeBox, timelapseUrl: Option<string>, screenshotUrl: Option<string>)

  datatype FormError = ContentMissing | TimelapseMissing | GithubMissing | ScreenshotMissing | TimeMissing

  /** The artlog data handed to the post request */
  datatype FormData = FormData(
    content: string, timelapseVideoId: Option<string>, githubImageLink: string,
    timeScreenshotId: Option<string>, hoursSpent: Option<nat>, minutesSpent: Option<nat>)

  datatype Checked = Rejected(error: FormError) | Accepted(data: FormData)

  function DataOf(st: FormState): FormData
  {
    FormData(Trim(st.content), st.timelapseUrl, Trim(st.githubLink), st.screenshotUrl,
             ParseInt(st.hours), ParseInt(st.minutes))
  }

  /** getFormData as written: the checks in order, the first failure giving
      its error; the time check rejects only when both boxes are strictly the
      number 0, so a box the user has typed into (even "0") passes it. */
  function GetFormDataAsWritten(st: FormState): Checked
  {
    if Trim(st.content) == "" then Rejected(ContentMissing)
    else if st.timelapse.None? then Rejected(TimelapseMissing)
    else if Trim(st.githubLink) == "" then Rejected(GithubMissing)
    else if st.screenshot.None? then Rejected(ScreenshotMissing)
    else if StrictlyZero(st.hours) && StrictlyZero(st.minutes) then Rejected(TimeMissing)
    else Accepted(DataOf(st))
  }

  /** getFormData with the time check the form evidently intends (and isValid
      applies): some time must have been spent. */
  function GetFormData(st: FormState): (r: Checked)
    ensures r.Accepted? ==> Positive(st.hours) || Positive(st.minutes)
  {
    if Trim(st.content) == "" then Rejected(ContentMissing)
    else if st.timelapse.None? then Rejected(TimelapseMissing)
    else if Trim(st.githubLink) == "" then Rejected(GithubMissing)
    else if st.screenshot.None? then Rejected(ScreenshotMissing)
    else if !(Positive(st.hours) || Positive(st.minutes)) then Rejected(TimeMissing)
    else Accepted(DataOf(st))
  }

  /** A form whose other parts are complete and whose boxes both read "0"
      passes the as-written time check, with no time spent at all; isValid
      rejects the same state. */
  lemma TypedZeroPassesAsWritten(st: FormState)
    requires Trim(st.content) != "" && st.timelapse.Some? && Trim(st.githubLink) != "" && st.screenshot.Some?
    requires st.hours == Typed("0") && st.minutes == Typed("0")
    ensures GetFormDataAsWritten(st).Accepted?
    ensures GetFormDataAsWritten(st).data.hoursSpent == Some(0)
    ensures GetFormDataAsWritten(st).data.minutesSpent == Some(0)
    ensures !IsValid(st) && GetFormData(st) == Rejected(TimeMissing)
  {
    assert DecimalValue("0") == 0 by {
      assert "0"[..0] == "";
    }
  }

  /** The checks come in order and the first failure is the one reported;
      an accepted form yields the trimmed texts, the uploaded URLs and the
      parsed time. */
  lemma FirstFailureReported(st: FormState)
    ensures GetFormData(st) == Rejected(ContentMissing) <==> Trim(st.content) == ""
    ensures GetFormData(st) == Rejected(TimelapseMissing) <==> Trim(st.content) != "" && st.timelapse.None?
    ensures GetFormData(st) == Rejected(GithubMissing) <==>
      Trim(st.content) != "" && st.timelapse.Some? && Trim(st.githubLink) == ""
    ensures GetFormData(st).Accepted? ==>
      && GetFormData(st).data.content == Trim(st.content) && GetFormData(st).data.content != ""
      && GetFormData(st).data.githubImageLink == Trim(st.githubLink)
      && GetFormData(st).data.timelapseVideoId == st.timelapseUrl
      && GetFormData(st).data.timeScreenshotId == st.screenshotUrl
  {
    var r := GetFormData(st);
    if Trim(st.content) == "" {
      assert r == Rejected(ContentMissing);
    } else if st.timelapse.None? {
      assert r == Rejected(TimelapseMissing);
    } else if Trim(st.githubLink) == "" {
      assert r == Rejected(GithubMissing);
    } else {
      assert r != Rejected(ContentMissing) && r != Rejected(TimelapseMissing) && r != Rejected(GithubMissing);
    }
  }

  /** isValid */
  predicate IsValid(st: FormState)
  {
    && Trim(st.content) != "" && st.timelapse.Some? && Trim(st.githubLink) != "" && st.screenshot.Some?
    && (Positive(st.hours) || Positive(st.minutes))
    && st.timelapseUrl.Some? && st.screenshotUrl.Some?
  }

  /** isValid holds exactly when getFormData (with the intended time check)
      accepts the form and both uploads are recorded. */
  lemma ValidIffAcceptedAndUploaded(st: FormState)
    ensures IsValid(st) <==> GetFormData(st).Accepted? && st.timelapseUrl.Some? && st.screenshotUrl.Some?
  {
  }

  /** The form's state, as the component holds it */
  class Form {
    var content: string
    var timelapse: Option<FileInfo>
    var githubLink: string
    var screenshot: Option<FileInfo>
    var hours: TimeBox
    var minutes: TimeBox
    var timelapseUrl: Option<string>
    var screenshotUrl: Option<string>

    constructor()
      ensures State() == FormState("", None, "", None, Untouched, Untouched, None, None)
    {
      content, timelapse, githubLink, screenshot := "", None, "", None;
      hours, minutes, timelapseUrl, screenshotUrl := Untouched, Untouched, None, None;
    }

    function State(): FormState
      reads this
    {
      FormState(content, timelapse, githubLink, screenshot, hours, minutes, timelapseUrl, screenshotUrl)
    }

    /** An upload is recorded only once a file of its kind has been selected. */
    predicate UploadsFollowSelection()
      reads this
    {
      (timelapseUrl.Some? ==> timelapse.Some?) && (screenshotUrl.Some? ==> screenshot.Some?)
    }

    /** The timelapse input's onChange: a rejected file changes nothing; an
        accepted one is selected, and its upload (`uploaded`, None when the
        upload fails) is recorded when it succeeds. */
    method SelectTimelapse(file: FileInfo, uploaded: Option<string>) returns (accepted: bool)
      modifies this
      ensures accepted <==> TimelapseAccepted(file)
      ensures !accepted ==> State() == old(State())
      ensures accepted ==> State() == old(State()).(timelapse := Some(file),
        timelapseUrl := if uploaded.Some? then uploaded else old(timelapseUrl))
      ensures old(UploadsFollowSelection()) ==> UploadsFollowSelection()
    {
      if !(file.mime == "video/mp4" || file.mime == "video/quicktime") {
        return false;
      }
      if file.size > MaxTimelapseBytes {
        return false;
      }
      timelapse := Some(file);
      if uploaded.Some? {
        timelapseUrl := uploaded;
      }
      accepted := true;
    }

    /** The screenshot input's onChange, with the same shape for images */
    method SelectScreenshot(file: FileInfo, uploaded: Option<string>) returns (accepted: bool)
      modifies this
      ensures accepted <==> ScreenshotAccepted(file)
      ensures !accepted ==> State() == old(State())
      ensures accepted ==> State() == old(State()).(screenshot := Some(file),
        screenshotUrl := if uploaded.Some? then uploaded else old(screenshotUrl))
      ensures old(UploadsFollowSelection()) ==> UploadsFollowSelection()
    {
      if !StartsWith(file.mime, "image/") {
        return false;
      }
      screenshot := Some(file);
      if uploaded.Some? {
        screenshotUrl := uploaded;
      }
      accepted := true;
    }

    /** clearFileInputs: both files and both uploads are forgotten. */
    method ClearFileInputs()
      modifies this
      ensures State() == old(State()).(timelapse := None, screenshot := None, timelapseUrl := None, screenshotUrl := None)
      ensures UploadsFollowSelection()
    {
      timelapse, screenshot, timelapseUrl, screenshotUrl := None, None, None, None;
    }
  }
}
