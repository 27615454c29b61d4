# DSSC Clinic student dashboard — a verified model

The dashboard is a single-page browser application in which a student of the
DSSC clinic keeps a profile (name, student id, program, department, e-mail,
phone, a profile picture and three medical-requirement checkboxes) and books
clinic appointments. Everything it keeps lives in the browser's local storage
under the keys `dssc_profile` and `dssc_appointments`.

This project models the dashboard's logic in Dafny:

- `utils.dfy` (module `Utils`) covers the static helpers of the `Utils` class:
  - the e-mail and phone checks, written as scanning predicates and proved equal to the regular expressions' shapes;
  - `formatTime`, on the 12-hour clock;
  - `isDateInFuture` and `getDaysUntil`, over instants in milliseconds;
  - `validateImageFile`;
  - the local-storage wrapper, over a map from keys to stored items;
  - the required-field check `validateForm`, as a loop over the required inputs' values.
- `dashboard.dfy` (module `Dashboard`) covers the `DSCCClinicDashboard` class as
  the class `ClinicDashboard`, whose fields are the profile, the appointment
  list and the store:
  - the load at start-up;
  - `saveProfile` and `bookAppointment`, with their checks in the source's order;
  - setting and clearing the profile picture;
  - the display order of the appointment list;
  - the upcoming-appointment reminder.

The clock and the browser's date parser enter as parameters:

- `now` is the current instant.
- A `DateParser` maps a date text to an instant, or to None for an Invalid Date.
- Whether a storage read or write succeeds is a boolean parameter.
- The generated id and the booking timestamp are parameters.

## Model

| member | source | states |
|---|---|---|
| Utils.IndexOf | utils.js:113 | the first position of a character, or None exactly when it does not occur; used to find the '@' of an address and the ':' of a time |
| Utils.TrimStartSpec | utils.js:210 | trimming the start removes exactly a blank prefix: what is left is a suffix of the text that does not start with white space |
| Utils.TrimEndSpec | utils.js:210 | trimming the end removes exactly a blank suffix: what is left is a prefix of the text that does not end with white space |
| Utils.TrimEmptyIffBlank | utils.js:210 | `Trim` (String.prototype.trim, as TrimEnd of TrimStart) leaves the empty text exactly when the value is all white space |
| Utils.NatToString | utils.js:30 | the decimal text of a number: non-empty, all digits, no leading zero, and its digits denote the number |
| Utils.ParseIntOfDigits | utils.js:27 | `ParseInt`, the model of parseInt, reads an all-digit text as that text's decimal value |
| Utils.EmailValidIff | utils.js:112-115 | the e-mail check `IsValidEmail` accepts exactly the texts local@domain.tld, with three non-empty parts free of white space and '@' |
| Utils.EmailValidToShape | utils.js:112-115 | every accepted address splits into the three parts of the pattern |
| Utils.EmailShapeToValid | utils.js:112-115 | every text built from the three parts of the pattern is accepted |
| Utils.ValidEmailHasOneAt | utils.js:112-115 | an accepted address has no white space and exactly one '@' |
| Utils.EmailAcceptsDefault | utils.js:112-115 | the built-in profile's address is accepted |
| Utils.EmailRejectsNoAt | utils.js:112-115 | every text without '@' is rejected |
| Utils.EmailRejectsWhitespace | utils.js:112-115 | every text with white space anywhere, in particular in its local part, is rejected |
| Utils.PhoneValidIff | utils.js:118-121 | the phone check `IsValidPhone` accepts exactly an optional '+' followed by at least ten digits, white space, '-', '(' or ')' |
| Utils.PhoneAcceptsFormatted | utils.js:118-121 | "+1 (555) 123-4567" is accepted |
| Utils.PhoneRejectsShort | utils.js:118-121 | "123" is rejected because it is shorter than ten characters |
| Utils.PhoneRejectsLaterPlus | utils.js:118-121 | every text with a '+' after its first character is rejected, so only a leading '+' is allowed |
| Utils.DisplayHour | utils.js:29 | the shown hour is in 1..12 and agrees with the 24-hour value modulo 12 |
| Utils.FieldsOf | utils.js:26 | splitting "HH:MM" at ':' yields the hours and the minutes |
| Utils.FormatTimeOf | utils.js:25-31 | for "HH:MM", `FormatTime` (the model of formatTime) gives a text whose shown hour is in 1..12 and congruent to HH modulo 12, the suffix is AM exactly when HH < 12, and the minutes are copied verbatim |
| Utils.FormatTimeOfDigits | utils.js:25-31 | the exact text formatTime produces for a digit hour and any minutes field without ':' |
| Utils.FormatTimeMidnight | utils.js:25-31 | "00:30" is shown as "12:30 AM" |
| Utils.FormatTimeAfternoon | utils.js:25-31 | "13:05" is shown as "1:05 PM" |
| Utils.FormatTimeNoon | utils.js:25-31 | "12:00" is shown as "12:00 PM" |
| Utils.StartOfDay | utils.js:47-48 | the result is a midnight, at or before the instant and less than one day before it |
| Utils.IsDateInFutureByDay | utils.js:45-50 | under `IsDateInFuture`, the model of isDateInFuture, a date counts as "in the future" exactly when its calendar day is today or later |
| Utils.GetDaysUntil | utils.js:124-130 | the result is the ceiling of the difference in days: (d-1) days < target - now <= d days |
| Utils.DaysUntilWindow | utils.js:124-130 | the value is 0..2 exactly when the target is after 24 hours ago and at most 48 hours ahead |
| Utils.DaysUntilStartOfDay | utils.js:124-130 | today's midnight is 0 days away |
| Utils.ValidateImageFile | utils.js:189-202 | a file is accepted exactly when its type is one of the five image types and its size is at most 5 MiB; the type error takes precedence over the size error |
| Utils.ImageFileBoundaries | utils.js:189-202 | exactly 5 MiB is accepted, one byte more is rejected for size, an unknown type is rejected for type |
| Utils.GetAfterSet | utils.js:133-151 | after a successful `SetLocalStorage` write, a read of that key returns the written value |
| Utils.SetFrame | utils.js:133-151 | a write changes what reads return only for its own key, and a failed write changes nothing |
| Utils.GetFallsBack | utils.js:143-151 | a `GetLocalStorage` read returns the default unless a parsable item is stored; unreadable storage, a missing key, an empty text and unparsable text all give the default |
| Utils.ValidateForm | utils.js:205-219 | true exactly when every required value is non-empty after trimming, that is, when none is empty or all white space |
| Utils.FilledIffNotBlank | utils.js:209-216 | every required value is non-empty after trimming exactly when none is all white space |
| Dashboard.DefaultEmailIsValid | data.js:105-116 | the built-in profile's e-mail passes the profile check |
| Dashboard.DefaultPhoneIsValid | data.js:105-116 | the built-in profile's phone passes the profile check |
| Dashboard.LoadWithoutData | script.js:177-185 | `LoadedProfile` and `LoadedAppointments` model the two reads of loadStoredData; with nothing stored, or unreadable storage, the session starts from the built-in profile and no appointments |
| Dashboard.LoadAfterSave | script.js:177-185 | what a save writes under one key is what the next load reads, and the other key's loaded value is unchanged |
| Dashboard.FindBySlot | script.js:294-296 | the duplicate search finds nothing exactly when no appointment has the requested date and time; otherwise it returns the first one that has them |
| Dashboard.LexLeTotal | script.js:334-338 | any two slot keys are comparable |
| Dashboard.LexLeTrans | script.js:334-338 | the key order is transitive |
| Dashboard.InsertBySlotPermutes | script.js:334-338 | inserting adds exactly the inserted appointment |
| Dashboard.InsertBySlotSorted | script.js:334-338 | inserting into an ascending list keeps it ascending |
| Dashboard.ConsSorted | script.js:334-338 | an appointment no later than all of an ascending list can go first |
| Dashboard.SortBySlotCorrect | script.js:334-338 | `SortBySlot`, an insertion sort built on `InsertBySlot` that models the sorted copy, gives a display order that is ascending by date and time and holds exactly the stored appointments, with their multiplicities |
| Dashboard.Upcoming | script.js:467-470 | every appointment kept by the filter is 0 to 2 days away; `DaysUntil` is getDaysUntil of the parsed date (None for an Invalid Date) and `IsUpcoming` is the 0..2 test on it |
| Dashboard.UpcomingEmptyIff | script.js:467-470 | the filter keeps nothing exactly when no appointment is 0 to 2 days away |
| Dashboard.UpcomingHead | script.js:472-473 | the filter's first entry is the first appointment, in stored order, that is 0 to 2 days away |
| Dashboard.ReminderNoneIff | script.js:464-490 | no reminder is shown exactly when no stored appointment is 0 to 2 days away |
| Dashboard.ReminderFirstMatch | script.js:464-490 | `Reminder`, the model of the message choice, is about the first appointment in stored order that is 0 to 2 days away, worded by its day count through `ReminderText` and `DayPhrase` ("today", "tomorrow", "in N days") |
| Dashboard.ReminderToday | script.js:477-478 | an appointment at today's midnight gives "You have an appointment today at ..." |
| Dashboard.ReminderUsesStoredOrder | script.js:472-482 | with a two-days-away appointment stored before one due today, the reminder names the first one, "in 2 days" |
| Dashboard.TodayText | script.js:477-478 | the wording for 0 days away is "today" |
| Dashboard.InTwoDaysText | script.js:481-483 | the wording for two days away is "in 2 days" |
| Dashboard.FirstUpcomingIndex | script.js:472 | when some appointment is 0 to 2 days away, there is a first such position |
| Dashboard.ClinicDashboard.constructor | script.js:1-8 | a new session holds the store it was given, and the profile and appointments loaded from it with their defaults |
| Dashboard.ClinicDashboard.SaveProfile | script.js:220-260 | checks in order: required fields, then e-mail, then phone, each with its own outcome. A valid form replaces the profile with exactly the form's fields and no picture (`ProfileFromForm`), only when the write succeeds. Then the store holds the new profile under its key and a load reads it back. Any other outcome changes nothing |
| Dashboard.ClinicDashboard.BookAppointment | script.js:269-315 | checks in order: required fields, then a past date, then a taken date and time, each with its own outcome; a rejection changes nothing. A booking that passes all three checks is accepted (Saved or SaveFailed, never another outcome). An accepted booking appends exactly one Pending record with the given id and timestamp. A successful write stores the whole list and a load reads it back. A failed write leaves the store unchanged but keeps the appended record. Distinct slots and distinct ids are preserved |
| Dashboard.ClinicDashboard.UploadProfilePicture | script.js:104-138 | a file that passes the image check and is resized becomes the profile picture; a rejected file, or one whose resizing fails or never finishes, changes nothing; the store is never written |
| Dashboard.ClinicDashboard.RemoveProfilePicture | script.js:141-152 | the picture is cleared in memory only; the rest of the profile, the list and the store are unchanged |
| Dashboard.ClinicDashboard.SortedAppointments | script.js:334-338 | the displayed list is ascending by date and time and is a permutation of the stored list |
| Dashboard.ClinicDashboard.CheckUpcomingAppointments | script.js:464-490 | no message exactly when no appointment is 0 to 2 days away; otherwise the message names the first such appointment in stored order, with its day wording, formatted time and type |

## Left out

- The DOM is not part of this model. That covers form fields, messages, notifications, the history tables, the mobile layout and the animations. Which message is shown is modelled as an `Outcome` value.
- The one-second delay before the reminder appears is not modelled.
- `Utils.resizeImage` is not part of this model. Canvas drawing and JPEG encoding are outside what Dafny can express. The outcome of resizing is a parameter of `UploadProfilePicture`: the data URL, or None when the image does not decode (the promise then never settles, since only `onload` is set) or an error reaches the catch.
- `Utils.generateId` and `new Date().toISOString()` are not part of this model, because they depend on the clock and on randomness. The id and the booking timestamp are parameters.
- Date parsing (`new Date(text)`) is an abstract `DateParser`. In a browser, a bare "YYYY-MM-DD" is read as UTC midnight, while `setHours(0, 0, 0, 0)` and the day counts use local time. The model puts every instant on one clock. The time-zone shift is therefore not captured: in time zones west of UTC it can make today's date count as past. East of UTC the reminder is off as well: in UTC+8, before 08:00 an appointment dated today is 1 day away ("tomorrow"), and one dated two days ahead is 3 days away and gets no reminder.
- `Dashboard.ClinicDashboard.SortedAppointments`: states the order of the texts `date + "T" + time` rather than of the parsed instants. The two agree for the ISO dates and 24-hour times that the date and time inputs produce, except for a time inside a daylight-saving gap: the browser reads such a time (say 02:30 on a spring-forward day) as the same instant as the time one hour later, the comparator returns 0 and the stable sort keeps the stored order, while the model puts 02:30 before 03:30. For an Invalid Date the comparator returns NaN, and the browser's order is then implementation-defined. Sort stability is not stated.
- `Utils.FormatTime`: models parseInt on texts whose hour field is a run of decimal digits, or starts without one (NaN). Leading white space, a sign and hexadecimal prefixes are not modelled. parseInt returns a floating-point number, while the model reads the hour as an exact integer: hour fields above 2^53 (rounded by parseInt) and of 309 digits or more (Infinity, whose `% 12` is NaN) are not modelled.
- Stored values have the shape the dashboard writes. A JSON value of another shape under a key (a number, `null`, an object missing fields) is read as the default, while the source would use it as it is.
- A stored profile without `profilePicture` and one with `null` are the same in the model (None).
- `checkUpcomingAppointments` reads the clock once per stored appointment in the filter (each getDaysUntil call makes its own `new Date()`) and once more for the chosen appointment. The model uses one `now` for all of these reads.
- Two behaviours that a reader might expect to be otherwise are modelled as the code has them:
  - A booking whose storage write fails stays in the in-memory list; it is not rolled back.
  - The reminder names the first upcoming appointment in stored order, not the earliest one.
- The profile picture is never written to storage. `saveProfile` builds the saved record from the form fields only, so it drops the picture, and `SaveProfile` states exactly that.
- Concurrency between browser tabs that share local storage is not modelled.
