/**
 * The application object: it owns the document, builds it at start-up from
 * the data file (normalising the project entries and defaulting the
 * settings), and runs the daily due-date check that decides which reminders
 * to send.
 */
module MainApp {
  import opened Wrappers
  import opened PyText
  import opened PyList
  import opened Dates
  import opened Records

  // Loading

  /**
   * One element of the `projects` list as parsed from the data file: an
   * object (its text-valued keys, and its `history` list when present), a
   * bare string, or any other value.
   */
  datatype RawEntry =
    | RawDict(fields: map<string, string>, history: Option<seq<HistoryEntry>>)
    | RawText(text: string)
    | RawOther

  /** The parsed data file; a member is `None` when its key is absent. */
  datatype RawDoc = RawDoc(projects: Option<seq<RawEntry>>, settings: Option<Settings>)

  /** What start-up finds: no data file, a file that cannot be read or parsed, or a parsed document. */
  datatype Source = Missing | Unreadable | Parsed(doc: RawDoc)

  /**
   * The emoji default written at load time. It is the pin emoji's UTF-8
   * bytes read as Windows-1252 text, kept exactly as the loader writes it.
   */
  const LoadEmoji: string := "\U{F0}\U{178}\U{201C}\U{152}"

  /** The document used when there is no usable data file. */
  const DefaultDocument: AppData := AppData(Some([]), DefaultSettings)

  /** `d.setdefault(key, default)`, read back. */
  function Lookup(fields: map<string, string>, key: string, default: string): string {
    if key in fields then fields[key] else default
  }

  /**
   * One entry after normalisation: an object with a name is kept and its
   * missing keys filled in (but not `category`); a string becomes a fresh
   * record; anything else is dropped.
   */
  function NormaliseEntry(e: RawEntry): Option<Project> {
    match e
    case RawDict(fields, history) =>
      if "name" !in fields then None
      else Some(Project(
        fields["name"],
        if "category" in fields then Some(fields["category"]) else None,
        Lookup(fields, "status", NotStarted),
        Lookup(fields, "emoji", LoadEmoji),
        Lookup(fields, "due_date", ""),
        Lookup(fields, "recurrence", NoRecurrence),
        history.GetOr([])))
    case RawText(text) =>
      Some(Project(text, Some("General"), NotStarted, LoadEmoji, "", NoRecurrence, []))
    case RawOther => None
  }

  predicate IsKept(e: RawEntry) {
    NormaliseEntry(e).Some?
  }

  /** The validated list: the kept entries, normalised, in their original order. */
  function Normalised(es: seq<RawEntry>): seq<Project> {
    if es == [] then []
    else
      match NormaliseEntry(es[0])
      case Some(p) => [p] + Normalised(es[1..])
      case None => Normalised(es[1..])
  }

  /** Normalisation works entry by entry, so it keeps the relative order of what it keeps. */
  lemma {:induction false} NormalisedAppend(a: seq<RawEntry>, b: seq<RawEntry>)
    ensures Normalised(a + b) == Normalised(a) + Normalised(b)
  {
    if a == [] {
      assert a + b == b;
    } else {
      assert (a + b)[1..] == a[1..] + b;
      NormalisedAppend(a[1..], b);
    }
  }

  /** One record per kept entry, so never more records than entries. */
  lemma {:induction false} NormalisedLength(es: seq<RawEntry>)
    ensures |Normalised(es)| == Count(es, IsKept) <= |es|
  {
    if es != [] {
      NormalisedLength(es[1..]);
    }
  }

  /**
   * Backfilling never overwrites: every key an object already has keeps its
   * value, and an object without `category` stays without one.
   */
  lemma BackfillKeepsValues(fields: map<string, string>, history: Option<seq<HistoryEntry>>)
    requires "name" in fields
    ensures var p := NormaliseEntry(RawDict(fields, history)).value;
      && p.name == fields["name"]
      && ("category" in fields <==> p.category.Some?)
      && ("category" in fields ==> p.category.value == fields["category"])
      && ("status" in fields ==> p.status == fields["status"])
      && ("emoji" in fields ==> p.emoji == fields["emoji"])
      && ("due_date" in fields ==> p.dueDate == fields["due_date"])
      && ("recurrence" in fields ==> p.recurrence == fields["recurrence"])
      && (history.Some? ==> p.history == history.value)
      && ("status" !in fields ==> p.status == NotStarted)
      && ("emoji" !in fields ==> p.emoji == LoadEmoji)
      && ("due_date" !in fields ==> p.dueDate == "")
      && ("recurrence" !in fields ==> p.recurrence == NoRecurrence)
      && (history.None? ==> p.history == [])
  {
  }

  /** Which entries survive: named objects and strings; a string becomes a General, Not Started record with no due date. */
  lemma EntryKinds(e: RawEntry)
    ensures IsKept(e) <==> (e.RawDict? && "name" in e.fields) || e.RawText?
    ensures e.RawText? ==>
      NormaliseEntry(e) == Some(Project(e.text, Some("General"), NotStarted, LoadEmoji, "", NoRecurrence, []))
  {
  }

  /** The `for` loop of `load_data` that builds `validated_projects`. */
  method NormaliseProjects(entries: seq<RawEntry>) returns (validated: seq<Project>)
    ensures validated == Normalised(entries)
  {
    validated := [];
    var i := 0;
    while i < |entries|
      invariant 0 <= i <= |entries|
      invariant validated == Normalised(entries[..i])
    {
      var e := entries[i];
      assert entries[..i + 1] == entries[..i] + [e];
      NormalisedAppend(entries[..i], [e]);
      match NormaliseEntry(e) {
        case Some(p) =>
          validated := validated + [p];
        case None =>
      }
      i := i + 1;
    }
    assert entries[..i] == entries;
  }

  /**
   * The document start-up builds: defaults without a usable file; otherwise
   * the projects normalised (an absent key stays absent, an empty list stays
   * empty) and the settings defaulted only when absent.
   */
  function Loaded(src: Source): AppData {
    match src
    case Missing => DefaultDocument
    case Unreadable => DefaultDocument
    case Parsed(doc) =>
      AppData(
        match doc.projects
        case None => None
        case Some(es) => if es == [] then Some([]) else Some(Normalised(es)),
        doc.settings.GetOr(DefaultSettings))
  }

  /** `load_data`. */
  method LoadData(src: Source) returns (data: AppData)
    ensures data == Loaded(src)
  {
    match src
    case Missing =>
      data := DefaultDocument;
    case Unreadable =>
      data := DefaultDocument;
    case Parsed(doc) =>
      var projects: Option<seq<Project>> := None;
      if doc.projects.Some? {
        if doc.projects.value != [] {
          var validated := NormaliseProjects(doc.projects.value);
          projects := Some(validated);
        } else {
          projects := Some([]);
        }
      }
      var settings := if doc.settings.Some? then doc.settings.value else DefaultSettings;
      data := AppData(projects, settings);
  }

  /** Settings that are present are kept as they are; absent ones become the defaults. */
  lemma LoadedSettings(doc: RawDoc)
    ensures doc.settings.Some? ==> Loaded(Parsed(doc)).settings == doc.settings.value
    ensures doc.settings.None? ==> Loaded(Parsed(doc)).settings == DefaultSettings
  {
  }

  // Saving, as the loader reads it back

  /** A record as `json.dump` writes it: every field as a key, `category` only when it has one. */
  function ToRaw(p: Project): RawEntry {
    var base := map["name" := p.name, "status" := p.status, "emoji" := p.emoji,
                    "due_date" := p.dueDate, "recurrence" := p.recurrence];
    RawDict(if p.category.Some? then base["category" := p.category.value] else base, Some(p.history))
  }

  function RawEntries(ps: seq<Project>): (es: seq<RawEntry>)
    ensures |es| == |ps|
  {
    if ps == [] then [] else [ToRaw(ps[0])] + RawEntries(ps[1..])
  }

  /** The document as saved. */
  function Dump(data: AppData): RawDoc {
    RawDoc(
      match data.projects
      case None => None
      case Some(ps) => Some(RawEntries(ps)),
      Some(data.settings))
  }

  /** Loading a saved record gives the record back. */
  lemma ToRawRoundTrip(p: Project)
    ensures NormaliseEntry(ToRaw(p)) == Some(p)
  {
  }

  lemma {:induction false} RawEntriesRoundTrip(ps: seq<Project>)
    ensures Normalised(RawEntries(ps)) == ps
  {
    if ps != [] {
      RawEntriesRoundTrip(ps[1..]);
      ToRawRoundTrip(ps[0]);
      assert RawEntries(ps)[1..] == RawEntries(ps[1..]);
      assert ps == [ps[0]] + ps[1..];
    }
  }

  /** Saving and loading again gives the same document. */
  lemma SaveThenLoad(data: AppData)
    ensures Loaded(Parsed(Dump(data))) == data
  {
    if data.projects.Some? {
      RawEntriesRoundTrip(data.projects.value);
    }
  }

  /** Normalisation is idempotent: loading what a load produced, once saved, changes nothing. */
  lemma LoadIdempotent(src: Source)
    ensures Loaded(Parsed(Dump(Loaded(src)))) == Loaded(src)
  {
    SaveThenLoad(Loaded(src));
  }

  // Saving, as the data file ends up

  /**
   * Whether a record still in the document has its history list inside
   * itself. `save_project` appends to a record's history list an entry
   * holding shallow copies of the record, and those copies share that same
   * list; `shared` holds the positions of the records edited that way. The
   * cycle goes away only with the record, when it is deleted or the list
   * is reset.
   */
  predicate SharesItself(data: AppData, shared: set<nat>) {
    exists i | i in shared :: i < |ProjectsOf(data)|
  }

  /**
   * The data file `save_data` leaves behind. With a document that contains
   * itself, `json.dump` raises "Circular reference detected" after
   * `open(..., "w")` has emptied the file and part of the text has been
   * written, so the file no longer parses, and the next start loads the
   * default document.
   */
  function WrittenFile(data: AppData, shared: set<nat>): (file: Source)
    ensures !SharesItself(data, shared) ==> Loaded(file) == data
    ensures SharesItself(data, shared) ==> Loaded(file) == DefaultDocument
  {
    if SharesItself(data, shared) then Unreadable
    else
      SaveThenLoad(data);
      Parsed(Dump(data))
  }

  /**
   * The positions of the edited records once the record at position `i` has
   * been removed: those before it stay, it leaves, those after it move down
   * by one.
   */
  function SharedAfterRemoval(shared: set<nat>, i: nat): set<nat> {
    set j | j in shared && j != i :: if j < i then j else j - 1
  }

  /** A position is edited after the removal exactly when the record now there was edited before it. */
  lemma SharedAfterRemovalIff(shared: set<nat>, i: nat, j: nat)
    ensures j in SharedAfterRemoval(shared, i) <==> (if j < i then j else j + 1) in shared
  {
    var k := if j < i then j else j + 1;
    if k in shared {
      assert k != i && (if k < i then k else k - 1) == j;
    }
  }

  // The daily due-date check

  /** A reminder as the notifier would be asked to show it. */
  datatype Notification = Notification(name: string, daysLeft: int, message: string)

  /** `settings.get("notifications", True)`. */
  predicate NotificationsEnabled(s: Settings) {
    s.notifications.GetOr(true)
  }

  /** The days-left values that trigger a reminder. */
  const ReminderDays: set<int> := {7, 2, 0}

  /** The reminder texts, for the three days-left values that have one. */
  function ReminderText(name: string, due: string, daysLeft: int): Option<string> {
    var quoted := "'" + name + "'";
    if daysLeft == 7 then Some(quoted + " is due in 1 week (" + due + ")")
    else if daysLeft == 2 then Some(quoted + " is due in 2 days (" + due + ")")
    else if daysLeft == 0 then Some(quoted + " is due today (" + due + ")")
    else None
  }

  /**
   * The check of one project: an empty due date or one that does not parse
   * is skipped; otherwise a reminder fires when it is 7, 2 or 0 days away.
   */
  function Reminder(p: Project, today: Date): (r: Option<Notification>)
    requires ValidDate(today)
    ensures r.Some? <==>
      p.dueDate != "" && Strptime(p.dueDate).Some? && DaysUntil(today, Strptime(p.dueDate).value) in ReminderDays
    ensures r.Some? ==> r.value.name == p.name && r.value.daysLeft in ReminderDays
    ensures r.Some? ==> r.value.daysLeft == DaysUntil(today, Strptime(p.dueDate).value)
    ensures r.Some? ==> Some(r.value.message) == ReminderText(p.name, p.dueDate, r.value.daysLeft)
  {
    if p.dueDate == "" then None
    else
      match Strptime(p.dueDate)
      case None => None
      case Some(due) =>
        var daysLeft := DaysUntil(today, due);
        match ReminderText(p.name, p.dueDate, daysLeft)
        case None => None
        case Some(message) => Some(Notification(p.name, daysLeft, message))
  }

  /** The reminders of one check, one at most per project, in list order. */
  function DueReminders(ps: seq<Project>, today: Date): seq<Notification>
    requires ValidDate(today)
  {
    if ps == [] then []
    else
      match Reminder(ps[0], today)
      case Some(n) => [n] + DueReminders(ps[1..], today)
      case None => DueReminders(ps[1..], today)
  }

  lemma OneReminder(p: Project, today: Date)
    requires ValidDate(today)
    ensures DueReminders([p], today) == if Reminder(p, today).Some? then [Reminder(p, today).value] else []
  {
    assert [p][1..] == [];
  }

  lemma {:induction false} DueRemindersAppend(a: seq<Project>, b: seq<Project>, today: Date)
    requires ValidDate(today)
    ensures DueReminders(a + b, today) == DueReminders(a, today) + DueReminders(b, today)
  {
    if a == [] {
      assert a + b == b;
    } else {
      assert (a + b)[1..] == a[1..] + b;
      DueRemindersAppend(a[1..], b, today);
    }
  }

  /**
   * A project whose due date is empty or does not parse only drops out: the
   * check goes on with the projects after it.
   */
  lemma UnparsableSkipped(a: seq<Project>, p: Project, b: seq<Project>, today: Date)
    requires ValidDate(today)
    requires p.dueDate == "" || Strptime(p.dueDate).None?
    ensures DueReminders(a + [p] + b, today) == DueReminders(a, today) + DueReminders(b, today)
  {
    assert Reminder(p, today).None?;
    OneReminder(p, today);
    var none := DueReminders([p], today);
    assert none == [];
    DueRemindersAppend(a + [p], b, today);
    DueRemindersAppend(a, [p], today);
    assert DueReminders(a, today) + none == DueReminders(a, today);
  }

  /** At most one reminder per project, and each is for 7, 2 or 0 days left. */
  lemma {:induction false} DueRemindersBounds(ps: seq<Project>, today: Date)
    requires ValidDate(today)
    ensures |DueReminders(ps, today)| <= |ps|
    ensures forall k :: 0 <= k < |DueReminders(ps, today)| ==> DueReminders(ps, today)[k].daysLeft in ReminderDays
  {
    if ps != [] {
      DueRemindersBounds(ps[1..], today);
    }
  }

  /** Zero days left means the due date is today, and a reminder a week or two days ahead is for a later date. */
  lemma ReminderDate(p: Project, today: Date)
    requires ValidDate(today) && Reminder(p, today).Some?
    ensures Reminder(p, today).value.daysLeft == 0 <==> Strptime(p.dueDate) == Some(today)
    ensures Reminder(p, today).value.daysLeft > 0 ==> Before(today, Strptime(p.dueDate).value)
  {
    DayNumberOrder(today, Strptime(p.dueDate).value);
  }

  /**
   * The text of a reminder names the project in single quotes, says when it
   * is due, and ends with the due date as entered, in parentheses; there is
   * a text for exactly the three days-left values.
   */
  lemma ReminderTexts(name: string, due: string, daysLeft: int)
    ensures ReminderText(name, due, daysLeft).Some? <==> daysLeft in ReminderDays
    ensures daysLeft == 7 ==> ReminderText(name, due, daysLeft) == Some("'" + name + "' is due in 1 week (" + due + ")")
    ensures daysLeft == 2 ==> ReminderText(name, due, daysLeft) == Some("'" + name + "' is due in 2 days (" + due + ")")
    ensures daysLeft == 0 ==> ReminderText(name, due, daysLeft) == Some("'" + name + "' is due today (" + due + ")")
  {
    var quoted := "'" + name + "'";
    assert quoted + " is due in 1 week (" + due + ")" == "'" + name + "' is due in 1 week (" + due + ")";
    assert quoted + " is due in 2 days (" + due + ")" == "'" + name + "' is due in 2 days (" + due + ")";
    assert quoted + " is due today (" + due + ")" == "'" + name + "' is due today (" + due + ")";
  }

  /** The application: the document it owns. */
  class MainApp {
    var appData: AppData
    /** The positions of the records whose history list `save_project` has made hold itself. */
    var selfSharing: set<nat>

    /** Every edited position is a record of the document. */
    ghost predicate Valid()
      reads this
    {
      forall i | i in selfSharing :: i < |ProjectsOf(appData)|
    }

    /** `build`: the document is whatever `load_data` produces. */
    constructor(src: Source)
      ensures appData == Loaded(src) && selfSharing == {}
      ensures Valid()
    {
      var data := LoadData(src);
      appData := data;
      selfSharing := {};
    }

    /** `save_data`: the data file it leaves, as the next start reads it. */
    method SaveData() returns (file: Source)
      ensures file == WrittenFile(appData, selfSharing)
      ensures Valid() ==> Loaded(file) == if selfSharing == {} then appData else DefaultDocument
    {
      if SharesItself(appData, selfSharing) {
        file := Unreadable;
      } else {
        file := Parsed(Dump(appData));
        SaveThenLoad(appData);
      }
    }

    /**
     * `schedule_notifications`: nothing when notifications are switched off,
     * otherwise the reminders of every project, checked one after another.
     */
    method ScheduleNotifications(today: Date) returns (sent: seq<Notification>)
      requires ValidDate(today)
      ensures sent == if NotificationsEnabled(appData.settings) then DueReminders(ProjectsOf(appData), today) else []
    {
      sent := [];
      if !NotificationsEnabled(appData.settings) {
        return;
      }
      var projects := ProjectsOf(appData);
      var i := 0;
      while i < |projects|
        invariant 0 <= i <= |projects|
        invariant sent == DueReminders(projects[..i], today)
      {
        var p := projects[i];
        var reminder: Option<Notification> := None;
        if p.dueDate != "" {
          match Strptime(p.dueDate) {
            case None =>
            case Some(due) =>
              var daysLeft := DaysUntil(today, due);
              var message := ReminderText(p.name, p.dueDate, daysLeft);
              if message.Some? {
                reminder := Some(Notification(p.name, daysLeft, message.value));
              }
          }
        }
        assert reminder == Reminder(p, today);
        OneReminder(p, today);
        assert projects[..i + 1] == projects[..i] + [p];
        DueRemindersAppend(projects[..i], [p], today);
        if reminder.Some? {
          sent := sent + [reminder.value];
        }
        i := i + 1;
      }
      assert projects[..i] == projects;
    }
  }
}
