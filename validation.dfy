/** The checks the calendar makes on the data of the "Start New Project" and
    "Edit Project" dialogs before it writes anything (ui/tabs/calendar.py,
    start_new_project and edit_project). The checks run in a fixed order and
    the first one that fails is the error shown. */
module Validation {

  import opened Records

  /** A date field of a dialog: empty, text that is not a YYYY-MM-DD date, or a day. */
  datatype DateText = Blank | Unparsable | OnDay(day: int)

  /** What the "Start New Project" dialog hands back, its text already stripped. */
  datatype NewProjectData = NewProjectData(
    jobName: string, jobNumber: string, description: string,
    startDate: DateText, endDate: DateText,
    artisanId: Option<int>, additionalArtisanId: Option<int>,
    teamName: Option<string>)

  /** What the "Edit Project" dialog hands back: the assigned list in its order. */
  datatype EditProjectData = EditProjectData(
    jobName: string, jobNumber: string, description: string,
    startDate: DateText, endDate: DateText,
    assignedArtisans: seq<int>)

  datatype InputError = JobNameRequired | ArtisanRequired | DatesRequired | MalformedDate | EndBeforeStart

  /** The message the calendar shows for each error. For a malformed date it is
      the date parser's message, which varies with the offending text; the model
      abstracts it to one text. */
  function Message(e: InputError): (m: string)
    ensures |m| > 0
  {
    match e
    case JobNameRequired => "Job name is required"
    case ArtisanRequired => "At least one artisan must be assigned"
    case DatesRequired => "Start date and end date are required"
    case MalformedDate => "time data does not match format '%Y-%m-%d'"
    case EndBeforeStart => "End date must be after start date"
  }

  /** Each error is told apart by its message. */
  lemma MessagesDistinct(e1: InputError, e2: InputError)
    requires e1 != e2
    ensures Message(e1) != Message(e2)
  {
    assert |Message(e1)| != |Message(e2)|;
  }

  /** The checks both dialogs share: both dates present, both parse, and the
      end is not before the start. Yields the two days. */
  function CheckDates(startDate: DateText, endDate: DateText): (r: Result<(int, int), InputError>)
    ensures r.Ok? <==> startDate.OnDay? && endDate.OnDay? && startDate.day <= endDate.day
    ensures r.Ok? ==> r.value == (startDate.day, endDate.day)
    ensures r == Err(DatesRequired) <==> startDate.Blank? || endDate.Blank?
    ensures r == Err(MalformedDate) <==> !startDate.Blank? && !endDate.Blank? && (startDate.Unparsable? || endDate.Unparsable?)
    ensures r == Err(EndBeforeStart) <==> startDate.OnDay? && endDate.OnDay? && endDate.day < startDate.day
  {
    if startDate.Blank? || endDate.Blank? then Err(DatesRequired)
    else if startDate.Unparsable? then Err(MalformedDate)
    else if endDate.Unparsable? then Err(MalformedDate)
    else if endDate.day < startDate.day then Err(EndBeforeStart)
    else Ok((startDate.day, endDate.day))
  }

  /** start_new_project's checks: name, then artisan, then the dates. */
  function ValidateNew(data: NewProjectData): (r: Result<(int, int), InputError>)
    ensures r == Err(JobNameRequired) <==> data.jobName == ""
    ensures r == Err(ArtisanRequired) <==> data.jobName != "" && !Truthy(data.artisanId)
    ensures data.jobName != "" && Truthy(data.artisanId) ==> r == CheckDates(data.startDate, data.endDate)
    ensures r.Ok? <==> data.jobName != "" && Truthy(data.artisanId)
                       && data.startDate.OnDay? && data.endDate.OnDay? && data.startDate.day <= data.endDate.day
  {
    if data.jobName == "" then Err(JobNameRequired)
    else if !Truthy(data.artisanId) then Err(ArtisanRequired)
    else CheckDates(data.startDate, data.endDate)
  }

  /** edit_project's checks: the same, without the artisan check. */
  function ValidateEdit(data: EditProjectData): (r: Result<(int, int), InputError>)
    ensures r != Err(ArtisanRequired)
    ensures r == Err(JobNameRequired) <==> data.jobName == ""
    ensures data.jobName != "" ==> r == CheckDates(data.startDate, data.endDate)
  {
    if data.jobName == "" then Err(JobNameRequired)
    else CheckDates(data.startDate, data.endDate)
  }

  /** Editing checks what creating checks, in the same order, minus the artisan
      check: with an artisan chosen the two agree on every input. */
  lemma EditAgreesWithNew(n: NewProjectData, e: EditProjectData)
    requires n.jobName == e.jobName && n.startDate == e.startDate && n.endDate == e.endDate
    requires Truthy(n.artisanId)
    ensures ValidateNew(n) == ValidateEdit(e)
  {
  }

  /** A project of a single day passes; one ending the day before it starts does not. */
  lemma SingleDayAccepted(name: string, d: int)
    requires name != ""
    ensures forall a :: Truthy(a) ==>
      ValidateNew(NewProjectData(name, "", "", OnDay(d), OnDay(d), a, None, None)) == Ok((d, d))
    ensures forall a :: Truthy(a) ==>
      ValidateNew(NewProjectData(name, "", "", OnDay(d + 1), OnDay(d), a, None, None)) == Err(EndBeforeStart)
  {
  }

  /** The artisans a new project starts with: the chosen one, then the
      additional one when one was chosen. */
  function ArtisanList(data: NewProjectData): (ids: seq<int>)
    requires Truthy(data.artisanId)
    ensures 1 <= |ids| <= 2 && ids[0] == data.artisanId.value
    ensures |ids| == 2 <==> Truthy(data.additionalArtisanId)
    ensures |ids| == 2 ==> ids[1] == data.additionalArtisanId.value
  {
    if Truthy(data.additionalArtisanId) then [data.artisanId.value, data.additionalArtisanId.value]
    else [data.artisanId.value]
  }

  /** A team is made only for two or more artisans and a non-empty team name. */
  predicate MakesTeam(data: NewProjectData)
    requires Truthy(data.artisanId)
    ensures MakesTeam(data) <==> Truthy(data.additionalArtisanId) && NonBlank(data.teamName)
  {
    |ArtisanList(data)| > 1 && NonBlank(data.teamName)
  }

  /** The two selectors are independent, so the same artisan can be chosen
      twice: the list then names that artisan twice. */
  lemma SameArtisanTwice(data: NewProjectData)
    requires Truthy(data.artisanId) && data.additionalArtisanId == data.artisanId
    ensures ArtisanList(data) == [data.artisanId.value, data.artisanId.value]
  {
  }
}
