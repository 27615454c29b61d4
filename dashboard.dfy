/** The dashboard session: the student's profile, the booked appointments and
    what the session writes to local storage, with the booking and profile
    rules, the display order of appointments and the upcoming-appointment
    reminder. */
module Dashboard {
  import opened Utils

  // ---------------------------------------------------------------------------
  // Records
  // ---------------------------------------------------------------------------

  /** Every appointment is created "Pending"; nothing in the session changes it. */
  datatype Status = Pending

  datatype Appointment = Appointment(
    id: string,
    appointmentType: string,
    date: string,
    time: string,
    status: Status,
    bookedAt: string)

  /** The student profile. `profilePicture` None stands for both a missing key
      and null. */
  datatype Profile = Profile(
    studentName: string,
    studentId: string,
    program: string,
    department: string,
    email: string,
    phone: string,
    profilePicture: Option<string>,
    drugTest: bool,
    bloodTyping: bool,
    cvc: bool)

  /** What the profile form submits: six text fields and three checkboxes. */
  datatype ProfileForm = ProfileForm(
    studentName: string,
    studentId: string,
    program: string,
    department: string,
    email: string,
    phone: string,
    drugTest: bool,
    bloodTyping: bool,
    cvc: bool)

  /** What the appointment form submits. */
  datatype AppointmentRequest = AppointmentRequest(appointmentType: string, date: string, time: string)

  /** The values the session keeps in local storage. */
  datatype Value = ProfileValue(profile: Profile) | AppointmentList(appointments: seq<Appointment>)

  /** Which message a form submission ends with. */
  datatype Outcome = Saved | MissingFields | PastDate | DuplicateSlot | InvalidEmail | InvalidPhone | SaveFailed

  /** Reads a date text as an instant (milliseconds on the local wall clock);
      None is an Invalid Date. */
  type DateParser = string -> Option<int>

  const ProfileKey: string := "dssc_profile"
  const AppointmentsKey: string := "dssc_appointments"

  /** Days ahead (inclusive) in which an appointment triggers the reminder. */
  const ReminderWindowDays: int := 2

  /** The built-in profile used when none is stored. */
  const DefaultProfile: Profile := Profile(
    "Juan Dela Cruz", "2021-12345", "Computer Science", "Information Technology",
    "juan.delacruz@dssc.edu.ph", "+63 912 345 6789", None, true, true, false)

  /** The built-in profile's e-mail passes the check a save applies. */
  lemma DefaultEmailIsValid()
    ensures IsValidEmail(DefaultProfile.email)
  {
    EmailAcceptsDefault(DefaultProfile.email);
  }

  /** The built-in profile's phone number passes the check a save applies. */
  lemma DefaultPhoneIsValid()
    ensures IsValidPhone(DefaultProfile.phone)
  {
    var s := "+63 912 345 6789";
    assert s[1..] == "63 912 345 6789";
  }

  /** The record saveProfile builds: exactly the form's fields and no picture. */
  function ProfileFromForm(form: ProfileForm): Profile {
    Profile(form.studentName, form.studentId, form.program, form.department,
            form.email, form.phone, None, form.drugTest, form.bloodTyping, form.cvc)
  }

  // ---------------------------------------------------------------------------
  // Loading
  // ---------------------------------------------------------------------------

  /** The profile loadStoredData starts with. A stored list under the profile
      key is treated like unparsable text. */
  function LoadedProfile(store: Store<Value>, readOk: bool): Profile {
    match GetLocalStorage(store, ProfileKey, ProfileValue(DefaultProfile), readOk)
    case ProfileValue(p) => p
    case AppointmentList(_) => DefaultProfile
  }

  /** The appointments loadStoredData starts with. */
  function LoadedAppointments(store: Store<Value>, readOk: bool): seq<Appointment> {
    match GetLocalStorage(store, AppointmentsKey, AppointmentList([]), readOk)
    case AppointmentList(list) => list
    case ProfileValue(_) => []
  }

  /** A first visit (nothing stored, or storage unreadable) starts from the
      built-in profile and no appointments. */
  lemma LoadWithoutData(store: Store<Value>, readOk: bool)
    requires !readOk || (ProfileKey !in store && AppointmentsKey !in store)
    ensures LoadedProfile(store, readOk) == DefaultProfile
    ensures LoadedAppointments(store, readOk) == []
  {
  }

  /** What a save writes is what the next load reads, whatever else is stored. */
  lemma LoadAfterSave(store: Store<Value>, p: Profile, list: seq<Appointment>)
    ensures LoadedProfile(SetLocalStorage(store, ProfileKey, ProfileValue(p), true).store, true) == p
    ensures LoadedAppointments(SetLocalStorage(store, AppointmentsKey, AppointmentList(list), true).store, true) == list
    ensures LoadedAppointments(SetLocalStorage(store, ProfileKey, ProfileValue(p), true).store, true)
      == LoadedAppointments(store, true)
    ensures LoadedProfile(SetLocalStorage(store, AppointmentsKey, AppointmentList(list), true).store, true)
      == LoadedProfile(store, true)
  {
    GetAfterSet(store, ProfileKey, ProfileValue(p), ProfileValue(DefaultProfile));
    GetAfterSet(store, AppointmentsKey, AppointmentList(list), AppointmentList([]));
    SetFrame(store, ProfileKey, ProfileValue(p), true, AppointmentsKey, AppointmentList([]), true);
    SetFrame(store, AppointmentsKey, AppointmentList(list), true, ProfileKey, ProfileValue(DefaultProfile), true);
  }

  // ---------------------------------------------------------------------------
  // Slots
  // ---------------------------------------------------------------------------

  predicate SameSlot(a: Appointment, b: Appointment) {
    a.date == b.date && a.time == b.time
  }

  /** No two appointments share a (date, time) slot. */
  predicate NoDuplicateSlots(list: seq<Appointment>) {
    forall i, j | 0 <= i < j < |list| :: !SameSlot(list[i], list[j])
  }

  /** No two appointments share an id. */
  predicate UniqueIds(list: seq<Appointment>) {
    forall i, j | 0 <= i < j < |list| :: list[i].id != list[j].id
  }

  /** `appointments.find(apt => apt.date === date && apt.time === time)`. */
  function FindBySlot(list: seq<Appointment>, date: string, time: string): (r: Option<Appointment>)
    ensures r.None? <==> forall i | 0 <= i < |list| :: !(list[i].date == date && list[i].time == time)
    ensures r.Some? ==> exists i | 0 <= i < |list| :: list[i] == r.value && r.value.date == date && r.value.time == time
    ensures r.Some? ==> forall i | 0 <= i < |list| && list[i] != r.value :: !(list[i].date == date && list[i].time == time) || exists k | 0 <= k < i :: list[k] == r.value
  {
    if |list| == 0 then None
    else if list[0].date == date && list[0].time == time then Some(list[0])
    else
      var r := FindBySlot(list[1..], date, time);
      assert forall i | 1 <= i < |list| :: list[i] == list[1..][i - 1];
      r
  }

  // ---------------------------------------------------------------------------
  // Display order
  // ---------------------------------------------------------------------------

  /** Lexicographic order on texts. For the ISO "YYYY-MM-DD" and 24-hour "HH:MM"
      texts the forms produce, it is the chronological order of the instants,
      except for a local time inside a daylight-saving gap. */
  predicate LexLe(a: string, b: string) {
    |a| == 0 || (|b| > 0 && (a[0] < b[0] || (a[0] == b[0] && LexLe(a[1..], b[1..]))))
  }

  lemma {:induction false} LexLeTotal(a: string, b: string)
    ensures LexLe(a, b) || LexLe(b, a)
  {
    if |a| > 0 && |b| > 0 && a[0] == b[0] {
      LexLeTotal(a[1..], b[1..]);
    }
  }

  lemma {:induction false} LexLeTrans(a: string, b: string, c: string)
    requires LexLe(a, b) && LexLe(b, c)
    ensures LexLe(a, c)
  {
    if |a| > 0 && a[0] == b[0] && b[0] == c[0] {
      LexLeTrans(a[1..], b[1..], c[1..]);
    }
  }

  /** The text `${date}T${time}` the comparator turns into an instant. */
  function SlotKey(a: Appointment): string {
    a.date + "T" + a.time
  }

  predicate SlotLe(a: Appointment, b: Appointment) {
    LexLe(SlotKey(a), SlotKey(b))
  }

  /** Ascending by (date, time). */
  predicate SortedBySlot(list: seq<Appointment>) {
    forall i, j | 0 <= i < j < |list| :: SlotLe(list[i], list[j])
  }

  /** Places `a` before the first entry it does not come after. */
  function InsertBySlot(a: Appointment, list: seq<Appointment>): seq<Appointment> {
    if |list| == 0 then [a]
    else if SlotLe(a, list[0]) then [a] + list
    else [list[0]] + InsertBySlot(a, list[1..])
  }

  /** The sorted copy displayAppointments shows. */
  function SortBySlot(list: seq<Appointment>): seq<Appointment> {
    if |list| == 0 then [] else InsertBySlot(list[0], SortBySlot(list[1..]))
  }

  lemma {:induction false} InsertBySlotPermutes(a: Appointment, list: seq<Appointment>)
    ensures multiset(InsertBySlot(a, list)) == multiset(list) + multiset{a}
  {
    if |list| > 0 && !SlotLe(a, list[0]) {
      InsertBySlotPermutes(a, list[1..]);
      assert list == [list[0]] + list[1..];
    }
  }

  /** An entry no later than every entry of a sorted list can go in front. */
  lemma ConsSorted(x: Appointment, list: seq<Appointment>)
    requires SortedBySlot(list)
    requires forall k | 0 <= k < |list| :: SlotLe(x, list[k])
    ensures SortedBySlot([x] + list)
  {
    var r := [x] + list;
    forall i, j | 0 <= i < j < |r| ensures SlotLe(r[i], r[j]) {
      assert r[j] == list[j - 1];
      if i > 0 {
        assert r[i] == list[i - 1];
      }
    }
  }

  lemma {:induction false} InsertBySlotSorted(a: Appointment, list: seq<Appointment>)
    requires SortedBySlot(list)
    ensures SortedBySlot(InsertBySlot(a, list))
  {
    if |list| == 0 {
    } else if SlotLe(a, list[0]) {
      forall k | 0 <= k < |list| ensures SlotLe(a, list[k]) {
        if k > 0 {
          LexLeTrans(SlotKey(a), SlotKey(list[0]), SlotKey(list[k]));
        }
      }
      ConsSorted(a, list);
    } else {
      var tail := list[1..];
      var t := InsertBySlot(a, tail);
      InsertBySlotSorted(a, tail);
      InsertBySlotPermutes(a, tail);
      LexLeTotal(SlotKey(a), SlotKey(list[0]));
      forall k | 0 <= k < |t| ensures SlotLe(list[0], t[k]) {
        var x := t[k];
        assert x in multiset(t);
        if x != a {
          assert x in multiset(tail);
          var m :| 0 <= m < |tail| && tail[m] == x;
          assert list[m + 1] == x;
        }
      }
      ConsSorted(list[0], t);
    }
  }

  /** The display order is ascending by slot and holds exactly the stored
      appointments, each as often as it is stored. */
  lemma {:induction false} SortBySlotCorrect(list: seq<Appointment>)
    ensures SortedBySlot(SortBySlot(list))
    ensures multiset(SortBySlot(list)) == multiset(list)
  {
    if |list| > 0 {
      SortBySlotCorrect(list[1..]);
      InsertBySlotSorted(list[0], SortBySlot(list[1..]));
      InsertBySlotPermutes(list[0], SortBySlot(list[1..]));
      assert list == [list[0]] + list[1..];
    }
  }

  // ---------------------------------------------------------------------------
  // Upcoming-appointment reminder
  // ---------------------------------------------------------------------------

  /** getDaysUntil(apt.date), or None for an Invalid Date (NaN). */
  function DaysUntil(a: Appointment, parse: DateParser, now: int): Option<int> {
    match parse(a.date)
    case None => None
    case Some(t) => Some(GetDaysUntil(t, now))
  }

  /** `daysUntil >= 0 && daysUntil <= 2`; NaN fails both comparisons. */
  predicate IsUpcoming(a: Appointment, parse: DateParser, now: int) {
    var d := DaysUntil(a, parse, now);
    d.Some? && 0 <= d.value <= ReminderWindowDays
  }

  /** The filter in checkUpcomingAppointments, in stored order. */
  function Upcoming(list: seq<Appointment>, parse: DateParser, now: int): (r: seq<Appointment>)
    ensures forall k | 0 <= k < |r| :: IsUpcoming(r[k], parse, now)
    ensures |r| <= |list|
  {
    if |list| == 0 then []
    else if IsUpcoming(list[0], parse, now) then [list[0]] + Upcoming(list[1..], parse, now)
    else Upcoming(list[1..], parse, now)
  }

  function DayPhrase(days: nat): string {
    if days == 0 then "today"
    else if days == 1 then "tomorrow"
    else "in " + NatToString(days) + " days"
  }

  function ReminderText(a: Appointment, days: nat): string {
    "You have an appointment " + DayPhrase(days) + " at " + FormatTime(a.time) + " - " + a.appointmentType
  }

  /** The message checkUpcomingAppointments shows, if any. */
  function Reminder(list: seq<Appointment>, parse: DateParser, now: int): Option<string> {
    if |list| == 0 then None
    else
      var up := Upcoming(list, parse, now);
      if |up| == 0 then None
      else Some(ReminderText(up[0], DaysUntil(up[0], parse, now).value))
  }

  lemma {:induction false} UpcomingEmptyIff(list: seq<Appointment>, parse: DateParser, now: int)
    ensures |Upcoming(list, parse, now)| == 0 <==> forall i | 0 <= i < |list| :: !IsUpcoming(list[i], parse, now)
  {
    if |list| > 0 {
      UpcomingEmptyIff(list[1..], parse, now);
      assert forall i | 1 <= i < |list| :: list[i] == list[1..][i - 1];
    }
  }

  lemma {:induction false} UpcomingHead(list: seq<Appointment>, parse: DateParser, now: int, i: nat)
    requires i < |list| && IsUpcoming(list[i], parse, now)
    requires forall j | 0 <= j < i :: !IsUpcoming(list[j], parse, now)
    ensures |Upcoming(list, parse, now)| > 0 && Upcoming(list, parse, now)[0] == list[i]
  {
    if i > 0 {
      UpcomingHead(list[1..], parse, now, i - 1);
    }
  }

  /** No reminder exactly when no stored appointment is 0 to 2 days away
      (in particular when there are none). */
  lemma ReminderNoneIff(list: seq<Appointment>, parse: DateParser, now: int)
    ensures Reminder(list, parse, now).None? <==> forall i | 0 <= i < |list| :: !IsUpcoming(list[i], parse, now)
  {
    UpcomingEmptyIff(list, parse, now);
  }

  /** The reminder is about the first appointment in stored order that is 0 to 2
      days away, worded by its day count. */
  lemma ReminderFirstMatch(list: seq<Appointment>, parse: DateParser, now: int, i: nat)
    requires i < |list| && IsUpcoming(list[i], parse, now)
    requires forall j | 0 <= j < i :: !IsUpcoming(list[j], parse, now)
    ensures Reminder(list, parse, now) == Some(ReminderText(list[i], DaysUntil(list[i], parse, now).value))
  {
    UpcomingHead(list, parse, now, i);
  }

  /** An appointment dated today's midnight gives the "today" wording. */
  lemma ReminderToday(a: Appointment, parse: DateParser, now: int)
    requires parse(a.date) == Some(StartOfDay(now))
    ensures Reminder([a], parse, now) ==
      Some("You have an appointment today at " + FormatTime(a.time) + " - " + a.appointmentType)
  {
    DaysUntilStartOfDay(now);
    assert DaysUntil(a, parse, now) == Some(0);
    ReminderFirstMatch([a], parse, now, 0);
    TodayText(a);
  }

  lemma TodayText(a: Appointment)
    ensures ReminderText(a, 0) ==
      "You have an appointment today at " + FormatTime(a.time) + " - " + a.appointmentType
  {
    assert "You have an appointment " + "today" + " at " == "You have an appointment today at ";
  }

  /** Stored order, not date order, decides: with a later appointment stored
      first, the reminder is about it even though an earlier one is due today. */
  lemma ReminderUsesStoredOrder(later: Appointment, today: Appointment, parse: DateParser, now: int)
    requires parse(later.date) == Some(StartOfDay(now) + 2 * DayMs)
    requires parse(today.date) == Some(StartOfDay(now))
    ensures IsUpcoming(today, parse, now)
    ensures Reminder([later, today], parse, now) ==
      Some("You have an appointment in 2 days at " + FormatTime(later.time) + " - " + later.appointmentType)
  {
    DaysUntilStartOfDay(now);
    var m := StartOfDay(now);
    assert GetDaysUntil(m + 2 * DayMs, now) == 2;
    assert DaysUntil(later, parse, now) == Some(2);
    ReminderFirstMatch([later, today], parse, now, 0);
    InTwoDaysText(later);
  }

  lemma InTwoDaysText(a: Appointment)
    ensures ReminderText(a, 2) ==
      "You have an appointment in 2 days at " + FormatTime(a.time) + " - " + a.appointmentType
  {
    assert NatToString(2) == [DigitChar(2)] == "2";
    assert DayPhrase(2) == "in 2 days";
    assert "You have an appointment " + "in 2 days" + " at " == "You have an appointment in 2 days at ";
  }

  // ---------------------------------------------------------------------------
  // The session
  // ---------------------------------------------------------------------------

  class ClinicDashboard {
    var appointments: seq<Appointment>
    var profile: Profile
    /** The browser's local storage as this session sees it. */
    var store: Store<Value>

    /** Construction and loadStoredData: the profile and the appointments come
        from storage, with the built-in profile and an empty list as defaults. */
    constructor (initial: Store<Value>, readOk: bool)
      ensures store == initial
      ensures profile == LoadedProfile(initial, readOk)
      ensures appointments == LoadedAppointments(initial, readOk)
    {
      store := initial;
      profile := LoadedProfile(initial, readOk);
      appointments := LoadedAppointments(initial, readOk);
    }

    /** saveProfile: required fields, then e-mail, then phone; a valid form
        replaces the profile wholesale only if the store write succeeds. */
    method SaveProfile(required: seq<string>, form: ProfileForm, writeOk: bool) returns (outcome: Outcome)
      modifies this
      ensures appointments == old(appointments)
      ensures outcome == MissingFields <==> !AllFilled(required)
      ensures outcome == InvalidEmail <==> AllFilled(required) && !IsValidEmail(form.email)
      ensures outcome == InvalidPhone <==>
        AllFilled(required) && IsValidEmail(form.email) && !IsValidPhone(form.phone)
      ensures outcome == SaveFailed <==>
        AllFilled(required) && IsValidEmail(form.email) && IsValidPhone(form.phone) && !writeOk
      ensures outcome == Saved <==>
        AllFilled(required) && IsValidEmail(form.email) && IsValidPhone(form.phone) && writeOk
      ensures outcome != Saved ==> profile == old(profile) && store == old(store)
      ensures outcome == Saved ==> profile == ProfileFromForm(form) && profile.profilePicture == None
      ensures outcome == Saved ==> store == old(store)[ProfileKey := Json(ProfileValue(profile))]
      ensures outcome == Saved ==> LoadedProfile(store, true) == profile
      ensures outcome == Saved ==> IsValidEmail(profile.email) && IsValidPhone(profile.phone)
    {
      var filled := ValidateForm(required);
      if !filled {
        return MissingFields;
      }
      var candidate := ProfileFromForm(form);
      if !IsValidEmail(candidate.email) {
        return InvalidEmail;
      }
      if !IsValidPhone(candidate.phone) {
        return InvalidPhone;
      }
      var written := SetLocalStorage(store, ProfileKey, ProfileValue(candidate), writeOk);
      store := written.store;
      if written.ok {
        profile := candidate;
        LoadAfterSave(old(store), candidate, []);
        outcome := Saved;
      } else {
        outcome := SaveFailed;
      }
    }

    /** bookAppointment: required fields, then a past date, then a taken slot;
        a booking that passes is appended and the whole list is written. A
        failed write keeps the appended record in memory. */
    method BookAppointment(required: seq<string>, request: AppointmentRequest, freshId: string,
                           bookedAt: string, parse: DateParser, now: int, writeOk: bool)
      returns (outcome: Outcome)
      modifies this
      ensures profile == old(profile)
      ensures outcome in {MissingFields, PastDate, DuplicateSlot, Saved, SaveFailed}
      ensures outcome == MissingFields <==> !AllFilled(required)
      ensures outcome == PastDate <==> AllFilled(required) && !IsDateInFuture(parse(request.date), now)
      ensures outcome == DuplicateSlot <==>
        AllFilled(required) && IsDateInFuture(parse(request.date), now)
        && exists i | 0 <= i < |old(appointments)| ::
             old(appointments)[i].date == request.date && old(appointments)[i].time == request.time
      ensures outcome in {MissingFields, PastDate, DuplicateSlot} ==>
        appointments == old(appointments) && store == old(store)
      ensures outcome in {Saved, SaveFailed} ==>
        appointments == old(appointments) +
          [Appointment(freshId, request.appointmentType, request.date, request.time, Pending, bookedAt)]
      ensures outcome == Saved <==> outcome in {Saved, SaveFailed} && writeOk
      ensures outcome == Saved ==> store == old(store)[AppointmentsKey := Json(AppointmentList(appointments))]
      ensures outcome == Saved ==> LoadedAppointments(store, true) == appointments
      ensures outcome == SaveFailed ==> store == old(store)
      ensures NoDuplicateSlots(old(appointments)) ==> NoDuplicateSlots(appointments)
      ensures UniqueIds(old(appointments)) && (forall a | a in old(appointments) :: a.id != freshId) ==>
        UniqueIds(appointments)
    {
      var filled := ValidateForm(required);
      if !filled {
        return MissingFields;
      }
      var booking := Appointment(freshId, request.appointmentType, request.date, request.time, Pending, bookedAt);
      if !IsDateInFuture(parse(booking.date), now) {
        return PastDate;
      }
      var duplicate := FindBySlot(appointments, booking.date, booking.time);
      if duplicate.Some? {
        return DuplicateSlot;
      }
      appointments := appointments + [booking];
      var written := SetLocalStorage(store, AppointmentsKey, AppointmentList(appointments), writeOk);
      store := written.store;
      if written.ok {
        LoadAfterSave(old(store), DefaultProfile, appointments);
        outcome := Saved;
      } else {
        outcome := SaveFailed;
      }
    }

    /** A picture that passes validateImageFile and is resized becomes the
        profile's picture (in memory only: nothing is written to storage).
        `resized` is None when resizing fails or never finishes (an image that
        does not decode): then the profile is left as it was. */
    method UploadProfilePicture(file: ImageFile, resized: Option<string>) returns (check: ImageCheck)
      modifies this
      ensures check == ValidateImageFile(file)
      ensures check.ImageOk? && resized.Some? ==> profile == old(profile).(profilePicture := resized)
      ensures check.ImageRejected? || resized.None? ==> profile == old(profile)
      ensures appointments == old(appointments) && store == old(store)
    {
      check := ValidateImageFile(file);
      if check.ImageOk? && resized.Some? {
        profile := profile.(profilePicture := resized);
      }
    }

    /** The remove button: the picture is cleared in memory only. */
    method RemoveProfilePicture()
      modifies this
      ensures profile == old(profile).(profilePicture := None)
      ensures appointments == old(appointments) && store == old(store)
    {
      profile := profile.(profilePicture := None);
    }

    /** The order displayAppointments shows: a sorted copy, ascending by slot,
        holding exactly the stored appointments; the stored order is untouched. */
    method SortedAppointments() returns (view: seq<Appointment>)
      ensures SortedBySlot(view)
      ensures multiset(view) == multiset(appointments)
      ensures |view| == |appointments|
    {
      view := SortBySlot(appointments);
      SortBySlotCorrect(appointments);
      assert |multiset(view)| == |multiset(appointments)|;
    }

    /** checkUpcomingAppointments: the reminder text, if any. */
    method CheckUpcomingAppointments(parse: DateParser, now: int) returns (message: Option<string>)
      ensures message.None? <==> forall i | 0 <= i < |appointments| :: !IsUpcoming(appointments[i], parse, now)
      ensures message.Some? ==> exists i | 0 <= i < |appointments| ::
        IsUpcoming(appointments[i], parse, now)
        && (forall j | 0 <= j < i :: !IsUpcoming(appointments[j], parse, now))
        && message.value == ReminderText(appointments[i], DaysUntil(appointments[i], parse, now).value)
    {
      message := Reminder(appointments, parse, now);
      ReminderNoneIff(appointments, parse, now);
      if message.Some? {
        var i := FirstUpcomingIndex(appointments, parse, now);
        ReminderFirstMatch(appointments, parse, now, i);
      }
    }
  }

  /** The position of the first appointment that is 0 to 2 days away. */
  lemma FirstUpcomingIndex(list: seq<Appointment>, parse: DateParser, now: int) returns (i: nat)
    requires exists k | 0 <= k < |list| :: IsUpcoming(list[k], parse, now)
    ensures i < |list| && IsUpcoming(list[i], parse, now)
    ensures forall j | 0 <= j < i :: !IsUpcoming(list[j], parse, now)
  {
    i := 0;
    while !IsUpcoming(list[i], parse, now)
      invariant i < |list|
      invariant forall j | 0 <= j < i :: !IsUpcoming(list[j], parse, now)
      invariant exists k | i <= k < |list| :: IsUpcoming(list[k], parse, now)
      decreases |list| - i
    {
      i := i + 1;
    }
  }
}
