# Hospital management front end — a Dafny model

This project models the logic of a hospital front end: the services and React pages that
show and edit patients, physicians, nurses, departments, appointments, certifications
("trained in") and affiliations. It also models the console game `GuessTheNumber`, which
ships in the same repository. The project covers:

- **Dashboard statistics** (`hospital-api-services.js`):
  - physicians per department name;
  - appointments per patient;
  - one record per department with its head's name;
  - this year's appointments per month.
- **The enhanced services** (`enhanced-services.js`):
  - look-ups by SSN and by procedure code, which return the first match;
  - a case-insensitive patient search;
  - appointments of a physician's patients, and dates expanded to appointment records;
  - the multi-call updates of a patient, physician, department and nurse. Each awaited call can reject and abort the calls after it.
- **The certifications page** (`trained-in-page.js`): the expiry badge rules and the loading of each physician's certifications into a dictionary.
- **The certification component** (`trained-in-component.js`): its status rules, the Extend action, the naming of certifications, and what the component shows after mounting and after a physician is chosen.
- **The appointments page** (`hospital-management-appointments.js`): the name look-ups of the table, the date formatting, the edit form and the submit dispatch.
- **The affiliations component** (`affiliated-with-component.js`): the rows it builds, its mount and department change, the checkbox field and the payload it posts.

How the model is built:

- **Modules.** One module per source file, plus shared modules:
  - `Js` (JavaScript values, truthiness, decimal ids);
  - `Seqs` (first match, filter, lower-casing, substring test);
  - `Tallies` (counting dictionaries);
  - `Dates` (calendar instants);
  - `Entities` (the records);
  - `Http` (the server the services call).
- **Fetches.** A fetched list is a `Response` parameter: `Ok(data)`, or `Fault` for a rejected promise. A fetch that depends on an id is a function from the id to a `Response`.
- **HTTP calls.** `Http.Server` is a class. Its `trace` records every call sent, and `failing` names the positions in the trace at which a call rejects. An update service is a method that sends its calls one after another and stops at the first rejection. It is specified by a plan (the calls it would send) and by `Issued`, the prefix of the plan that actually goes out.
- **React components.** Each handler is a function from the component state before it to the state after it has settled.

## Model

| member | source | states |
|---|---|---|
| `GuessTheNumber.SecretNumber` | GuessTheNumber.java:9 | the secret lies in 1..100 and is one more than the generator's draw from 0..99 |
| `GuessTheNumber.Classify` | GuessTheNumber.java:24-33 | out of range exactly when the guess is outside 1..100; too low / too high exactly when in range and below / above the secret; correct exactly when equal |
| `GuessTheNumber.Play` | GuessTheNumber.java:19-34 | one guess is read and counted per round and each reply is `Classify`'s; the game is won iff the secret is among the guesses, and then it ends at its first occurrence; without a win every guess is consumed |
| `GuessTheNumber.EarlierRoundsDoNotEnd` | GuessTheNumber.java:19-31 | every round before the winning one gets a non-winning reply, the winning one gets Correct |
| `Js.Bit` | hospital-api-services.js:41 | `v ? 1 : 0` is 0 or 1, and 1 exactly for a truthy value |
| `Js.ParseDecimalRoundTrip` | trained-in-component.js:193-194 | the decimal text of a numeric id reads back as that id |
| `Js.SelectedIdRoundTrip` | affiliated-with-component.js:164-165 | the value of an `<option>` built from an id, read back as an id, is that numeric id |
| `Seqs.Contains` | enhanced-services.js:79 | `includes` holds iff the needle occurs at some position of the text |
| `Seqs.Lower` | enhanced-services.js:79 | `toLowerCase` maps each ASCII capital to its small letter and keeps every other character and the length |
| `Seqs.LowerIdempotent` | enhanced-services.js:79 | lower-casing twice is lower-casing once |
| `Seqs.FilterIsSubsequence` | enhanced-services.js:78-80 | `filter` keeps the kept elements in their original order |
| `Seqs.FilterCounts` | enhanced-services.js:78-80 | `filter` keeps every copy of an element that passes and none of one that fails |
| `Tallies.Tally` | hospital-api-services.js:303-307 | a counting dictionary has exactly the counted values as keys, each mapped to its number of occurrences (at least 1) |
| `Tallies.TallySnoc` | hospital-api-services.js:303-307 | counting one more value increments its entry if present and creates it with 1 otherwise |
| `Tallies.TotalTally` | hospital-api-services.js:339 | the counts of a counting dictionary add up to the number of values counted |
| `Dates.BeforeTrichotomy` | trained-in-page.js:141-145 | `<` on dates is a strict total order: irreflexive, asymmetric, and any two distinct dates compare |
| `Dates.BeforeTransitive` | trained-in-page.js:141-145 | `<` on dates is transitive |
| `Dates.AddMonths` | trained-in-component.js:152-153 | `setMonth(getMonth() + k)` gives a valid date k calendar months later, keeping the day and the time of day |
| `Dates.AddYearsToDate` | trained-in-component.js:235-240 | `setFullYear(getFullYear() + k)` then date-only formatting: the year grows by k, month and day are kept, the time is dropped |
| `Dates.BeforeMonthIndex` | trained-in-page.js:136-138 | an earlier date never lies in a later calendar month |
| `Dates.MonthIndexBefore` | trained-in-page.js:136-138 | a date in an earlier calendar month is earlier |
| `Http.Server.Send` | hospital-api-services.js:41 | one awaited call is appended to the trace and rejects exactly when its position is a failing one |
| `Http.FirstFailure` | hospital-api-services.js:39-47 | the position within a plan of the first call that rejects, or the plan's length when none does |
| `Http.IssuedIsPrefix` | hospital-api-services.js:39-47 | the calls that go out are the plan up to and including the first rejected one; the service resolves iff no call rejects |
| `Http.AllIssuedOnSuccess` | enhanced-services.js:40-51 | when no call rejects every call of the plan goes out |
| `Http.FailureStopsLaterCalls` | enhanced-services.js:121-134 | a rejection at step k sends exactly the first k + 1 calls and the service rejects |
| `HospitalApiServices.NursePlan` | hospital-api-services.js:41-43 | the registration call comes first, with status 1 iff `Registered` is truthy and 0 otherwise; then the SSN call |
| `HospitalApiServices.UpdateNurse` | hospital-api-services.js:38-48 | the calls sent are those of the plan up to the first rejection, and the result is true iff neither rejects |
| `HospitalApiServices.NurseCallOrder` | hospital-api-services.js:38-48 | the registration call always goes out; the SSN call goes out iff the registration call resolves; success iff both resolve |
| `HospitalApiServices.AffiliatedNames` | hospital-api-services.js:300-302 | the department names of all physicians are available iff every per-physician fetch resolves |
| `HospitalApiServices.GetPhysicianStats` | hospital-api-services.js:294-319 | resolves iff every fetch resolves; the total is the number of physicians and the distribution is the tally of all affiliated department names |
| `HospitalApiServices.PhysicianDistributionCounts` | hospital-api-services.js:303-313 | a department name is a key iff it occurs, its count is its multiplicity, and the counts add up to the number of affiliations |
| `HospitalApiServices.GetPatientStats` | hospital-api-services.js:321-345 | resolves iff both fetches resolve; the total is the number of patients and the distribution is the tally of the appointments' patients |
| `HospitalApiServices.PatientDistributionCounts` | hospital-api-services.js:328-334 | a patient is a key iff some appointment is theirs, the count is the number of their appointments, and the counts add up to the number of appointments |
| `HospitalApiServices.HeadName` | hospital-api-services.js:360 | the head's name, or 'No head assigned' when there is none |
| `HospitalApiServices.GetDepartmentStats` | hospital-api-services.js:347-369 | resolves iff every fetch resolves; one record per department in order, with its name, id, physician count and head name |
| `HospitalApiServices.MonthsInYear` | hospital-api-services.js:382-386 | a month is listed iff some appointment starts in the given year in that month |
| `HospitalApiServices.GetAppointmentStats` | hospital-api-services.js:371-403 | resolves iff both fetches resolve; the totals are the numbers of all and of today's appointments, and the months are the tally of this year's start months |
| `HospitalApiServices.MonthsInYearCounts` | hospital-api-services.js:382-392 | one month is listed per appointment of the year, and month m is listed as often as the year's appointments start in m |
| `HospitalApiServices.AppointmentMonthCounts` | hospital-api-services.js:382-398 | the month counters add up to the number of this year's appointments (never more than all), and with valid dates every key is a month 0..11 |
| `HospitalApiServices.AppointmentMonthCounter` | hospital-api-services.js:385-391 | month m has a counter iff some appointment of the year starts in m, and the counter is the number of such appointments |
| `EnhancedServices.PatientById` | enhanced-services.js:18-28 | the first patient with that SSN, and nothing exactly when no patient has it |
| `EnhancedServices.PatientByIdFirst` | enhanced-services.js:23 | when position i holds the first patient with that SSN, that patient is the one found |
| `EnhancedServices.ProcedureById` | enhanced-services.js:399-408 | rejects iff the procedure fetch rejects; otherwise the first procedure with that code, and nothing exactly when no procedure has it |
| `EnhancedServices.SearchPatients` | enhanced-services.js:74-85 | a patient is returned iff it is listed and its lower-cased name contains the lower-cased term |
| `EnhancedServices.SearchPatientsKeepsOrder` | enhanced-services.js:78-80 | the results keep the list's order and every copy of a matching patient |
| `EnhancedServices.SearchPatientsEmptyTerm` | enhanced-services.js:78-80 | the empty term returns every patient |
| `EnhancedServices.SearchPatientsCaseInsensitive` | enhanced-services.js:79 | searching for a term and for its lower-cased form gives the same result |
| `EnhancedServices.HasSsn` | enhanced-services.js:361 | `some` holds iff some patient has that SSN |
| `EnhancedServices.AppointmentsByPhysician` | enhanced-services.js:352-367 | resolves iff both fetches resolve; an appointment is returned iff it is listed and its patient is one of the physician's patients |
| `EnhancedServices.AppointmentsByPhysicianKeepsOrder` | enhanced-services.js:360-362 | the appointments keep their original order, and every copy of an appointment of the physician's patients is kept |
| `EnhancedServices.AppointmentsByPatient` | enhanced-services.js:369-383 | rejects iff the dates fetch rejects; otherwise one record per date, each naming the patient and carrying that date |
| `EnhancedServices.AppointmentsByPatientDates` | enhanced-services.js:374-378 | the start dates of the records are the fetched dates, in order |
| `EnhancedServices.PatientPlan` | enhanced-services.js:43-45 | the address call, then the phone call, both for the patient's SSN |
| `EnhancedServices.PatientPlanSendsOnlyAddressAndPhone` | enhanced-services.js:43-45 | two patients with the same SSN, address and phone produce the same calls |
| `EnhancedServices.UpdatePatient` | enhanced-services.js:40-51 | the calls sent are the plan up to the first rejection; the result is true iff none rejects |
| `EnhancedServices.PhysicianPlan` | enhanced-services.js:124-128 | the name, position and SSN calls, in that order, for the physician's id |
| `EnhancedServices.UpdatePhysician` | enhanced-services.js:121-134 | the calls sent are the plan up to the first rejection; the result is true iff none rejects |
| `EnhancedServices.PhysicianFailureStopsLaterCalls` | enhanced-services.js:121-134 | a rejected name call sends nothing else; a rejected position call leaves the SSN unsent |
| `EnhancedServices.DepartmentPlan` | enhanced-services.js:214-218 | the name call, and then the head call exactly when `Head` is truthy |
| `EnhancedServices.UpdateDepartment` | enhanced-services.js:211-224 | the calls sent are the plan up to the first rejection; the result is true iff none rejects |
| `EnhancedServices.DepartmentHeadSent` | enhanced-services.js:216-218 | without a truthy head no head call is sent; with one it is sent iff the name call resolves |
| `TrainedInPage.MonthsDiff` | trained-in-page.js:136-137 | the difference in calendar months: twelve per year plus the difference of the months |
| `TrainedInPage.ExpiredExcludesExpiringSoon` | trained-in-page.js:133-145 | no certification is both expired and expiring soon |
| `TrainedInPage.BadgeFor` | trained-in-page.js:194-200 | Expired iff expired, Expiring Soon iff expiring soon, Valid iff neither |
| `TrainedInPage.ValidBadgeMeansFarAway` | trained-in-page.js:194-200 | the badge is Valid iff the expiry is exactly now, or later and more than three calendar months ahead |
| `TrainedInPage.ProcedureName` | trained-in-page.js:128-131 | the name of the first procedure with that code, 'Unknown' when none has it |
| `TrainedInPage.CertificationsOrEmpty` | trained-in-page.js:39-45 | a physician's entry is the fetched list, or empty when that fetch rejects |
| `TrainedInPage.FetchData` | trained-in-page.js:24-56 | when either list fetch rejects only the error and loading flag change; otherwise the lists are stored, the dictionary has a key iff some physician has that id, and each entry is that physician's certifications or empty |
| `TrainedIn.CertificationStatus` | trained-in-component.js:158-166 | Expired iff before now; Expiring Soon iff after now and before three months on; Valid iff neither |
| `TrainedIn.ExpiringSoonAgreesWithPage` | trained-in-component.js:149-156 | what the component calls expiring soon, the certifications page also calls expiring soon |
| `TrainedIn.ExpiringSoonDiffersFromPage` | trained-in-component.js:149-156 | the converse fails: an expiry three months and five days ahead is expiring soon on the page and valid in the component |
| `TrainedIn.Extend` | trained-in-component.js:233-241 | the update keeps the physician and treatment and moves the expiry date two years on, keeping month and day |
| `TrainedIn.ExtendMakesValid` | trained-in-component.js:233-241 | extending a certification that has not expired makes it Valid |
| `TrainedIn.ProcedureLabel` | trained-in-component.js:57-60 | the name of the first procedure with the treatment's code, 'Unknown Procedure' when none has it |
| `TrainedIn.PhysicianLabel` | trained-in-component.js:61 | the name of the first physician whose id is strictly equal, 'Unknown' when none is or the name is empty |
| `TrainedIn.TextualIdMatchesNoPhysician` | trained-in-component.js:61 | a textual id is strictly equal to no numeric employee id, so the label is 'Unknown' |
| `TrainedIn.Enrich` | trained-in-component.js:56-63 | one entry per fetched certification, carrying it with its procedure label and physician label |
| `TrainedIn.LoadCertifications` | trained-in-component.js:50-74 | both loading flags end false; on success the certifications are the enriched list, on rejection they are kept and the error is set |
| `TrainedIn.MountAsWritten` | trained-in-component.js:25-48 | a rejected list fetch sets 'Failed to fetch data'; no physicians only clears loading; otherwise the lists are stored and the first physician selected, but its certifications are enriched with empty procedure and physician lists (those of the first render), and a rejected certification fetch sets its error |
| `TrainedIn.MountAsWrittenLosesNames` | trained-in-component.js:36-39 | on the first load every certification shows 'Unknown Procedure' and 'Unknown' |
| `TrainedIn.MountAsWrittenExample` | trained-in-component.js:36-39 | a concrete first load showing both wrong names |
| `TrainedIn.Mount` | trained-in-component.js:25-48 | a rejection sets the error; no physicians clears loading; otherwise the first physician is selected and loaded with the fetched lists |
| `TrainedIn.MountShowsNames` | trained-in-component.js:36-39 | with the intended load each certification carries its procedure's name and the first physician's name |
| `TrainedIn.PhysicianChangeAsWritten` | trained-in-component.js:76-80 | the selected physician becomes the option's text and the certifications are named with that text |
| `TrainedIn.PhysicianChangeAsWrittenLosesName` | trained-in-component.js:76-79 | after a change of physician every certification shows 'Unknown' as physician |
| `TrainedIn.PhysicianChange` | trained-in-component.js:76-80 | the option's text is read back as a numeric id, which is selected and loaded |
| `TrainedIn.PhysicianChangeShowsName` | trained-in-component.js:76-79 | choosing a physician's option selects its id and shows its name on every certification |
| `AppointmentsPage.PatientName` | hospital-management-appointments.js:130-133 | the name of the first patient with that SSN, 'Unknown' when none has it |
| `AppointmentsPage.PhysicianName` | hospital-management-appointments.js:135-138 | the name of the first physician with that id, 'Unknown' when none has it |
| `AppointmentsPage.NurseName` | hospital-management-appointments.js:140-144 | 'None' for a falsy id; otherwise the first matching nurse's name, 'Unknown' when none matches |
| `AppointmentsPage.RowNamesNonEmpty` | hospital-management-appointments.js:130-144 | when no stored name is empty, no column of a row is empty |
| `AppointmentsPage.FormatDateTime` | hospital-management-appointments.js:146-150 | empty for a missing date, otherwise the browser's rendering of it |
| `AppointmentsPage.FormatDateForInput` | hospital-management-appointments.js:101-105 | empty for a missing date; an invalid date throws; otherwise the first 16 characters of the ISO text |
| `AppointmentsPage.EditForm` | hospital-management-appointments.js:85-99 | the form holds exactly the seven fields copied from the appointment, an empty prep nurse when it has none, and fails when either date cannot be formatted |
| `AppointmentsPage.SubmitRequest` | hospital-management-appointments.js:115-121 | when editing, the room update for the form's id and room; otherwise the whole form is posted |
| `AppointmentsPage.SubmitError` | hospital-management-appointments.js:125 | the update message when editing, the add message otherwise |
| `AppointmentsPage.HandleSubmit` | hospital-management-appointments.js:112-128 | exactly one call is sent; the page shows an error iff it rejects, with the message for the mode |
| `AppointmentsPage.EditSendsOnlyRoom` | hospital-management-appointments.js:117 | two forms that agree on id and room produce the same edit call |
| `AffiliatedWith.DepartmentLabel` | affiliated-with-component.js:62 | the name of the first department whose id is strictly equal, 'Unknown' when none is or the name is empty |
| `AffiliatedWith.BuildRows` | affiliated-with-component.js:55-65 | one row per physician id with the physician's name, the department, its label, and not primary |
| `AffiliatedWith.LoadAffiliations` | affiliated-with-component.js:49-76 | both loading flags end false; on success the rows are built, on rejection they are kept and the error is set |
| `AffiliatedWith.MountAsWritten` | affiliated-with-component.js:24-47 | a rejected list fetch sets 'Failed to fetch data'; no departments only clears loading; otherwise the lists are stored and the first department selected, but its rows are built with empty physician and department lists (those of the first render), and a rejected id fetch sets its error |
| `AffiliatedWith.MountAsWrittenLosesNames` | affiliated-with-component.js:35-38 | on the first load every row shows 'Unknown' for physician and department |
| `AffiliatedWith.MountAsWrittenExample` | affiliated-with-component.js:35-38 | a concrete first load showing both wrong names |
| `AffiliatedWith.Mount` | affiliated-with-component.js:24-47 | a rejection sets the error; no departments clears loading; otherwise the first department is selected and loaded with the fetched lists |
| `AffiliatedWith.MountShowsNames` | affiliated-with-component.js:35-38 | with the intended load every row carries the department's name and its physician's name |
| `AffiliatedWith.DepartmentChangeAsWritten` | affiliated-with-component.js:78-82 | the selected department becomes the option's text and the rows are built with that text |
| `AffiliatedWith.DepartmentChangeAsWrittenLosesName` | affiliated-with-component.js:78-81 | after a change of department every row shows 'Unknown' as department |
| `AffiliatedWith.DepartmentChange` | affiliated-with-component.js:78-82 | the option's text is read back as a numeric id, which is selected and loaded |
| `AffiliatedWith.DepartmentChangeShowsName` | affiliated-with-component.js:78-81 | choosing a department's option selects its id and shows its name on every row |
| `AffiliatedWith.HandleInputChange` | affiliated-with-component.js:102-108 | the named field takes the checked flag for a checkbox and the text otherwise; every other field is kept |
| `AffiliatedWith.SubmitPayload` | affiliated-with-component.js:113-116 | the form with PrimaryAffiliation replaced by 1 iff it was truthy and by 0 otherwise; nothing else changes |
| `AffiliatedWith.CheckboxReachesPayload` | affiliated-with-component.js:102-116 | ticking the box posts 1, clearing it posts 0 |
| `AffiliatedWith.HandleSubmit` | affiliated-with-component.js:110-125 | one POST of the payload; the page shows 'Failed to add affiliation' iff it rejects |

## Left out

- I/O: console reading and printing in `GuessTheNumber`, the HTTP transport, and `console.error` logging. The guesses and the generator's draw are parameters. A rejected HTTP call is a failing trace position or a `Fault` response.
- GuessTheNumber.Play: running out of input (Java's `NoSuchElementException`) is modelled as the loop ending without a win. The guesses are unbounded integers. `nextInt` throws `InputMismatchException` for a non-numeric token or one outside 32 bits; the model instead classifies such a guess (say 2^40) as out of range and plays on. The 32-bit overflow of `numberOfTries` after 2^31 rounds is not modelled.
- The clock and the JavaScript `Date` parser are parameters. `new Date()` is the `today`/`now` argument. Parsing a stored date is `parse` or `iso`, and `toLocaleString` is `render`. Time zones are not modelled.
- TrainedInPage.BadgeFor: the expiry is taken as an already-parsed `Instant`. The source parses the stored text with `new Date(expiryDate)`, and an empty or unparsable value gives an Invalid Date. An Invalid Date compares false both ways and makes `monthsDiff` NaN, so the page shows 'Valid' for it; the model cannot represent that value. The same holds for `TrainedIn.CertificationStatus`. `isExpired` and `isExpiringSoon` each read the clock themselves; the model uses one `today` for both.
- TrainedIn.IsCertificationExpiringSoon: the source reads the clock twice (`now` and `threeMonthsFromNow`). The model uses one instant for both.
- Dates.AddMonths: JavaScript's `setMonth` rolls a day that does not exist in the target month (31 January + 1 month) into the next month. The model keeps the day as it is.
- Dates.AddYearsToDate: the same rollover for 29 February is not modelled.
- HospitalApiServices.GetPatientStats: `averageAppointmentsPerPatient` is a floating-point division (NaN or Infinity when there are no patients). It is not computed. `Tallies.TotalTally` proves its numerator equals the number of appointments.
- HospitalApiServices.GetPhysicianStats: JavaScript object keys are strings and inherit `Object.prototype` properties. The model has no such collisions: a department named `constructor` counts like any other name. Patients and months are counted under numeric keys.
- `Procedure.cost` is a `real` and is only carried, never computed with.
- Seqs.Lower: only ASCII letters are lower-cased. Unicode case mapping is outside the model.
- TrainedInPage.FetchData: the source fetches the per-physician lists concurrently (`Promise.all`). The model fetches them one after another. The resulting dictionary is the same, because each entry depends only on its own id.
- Loading spinners between the start and the end of a handler, modal opening and closing, and the refetch after a submit or an expiry update are not modelled. Each handler is observed once it has settled.
- `updateProcedure`, `handleUpdatePrimary`, the add-certification modal and `handleUpdateExpiry`'s own request are not part of this model. `TrainedIn.Extend` states the request the Extend button asks for.
- The Extend prompt on the certifications page (`trained-in-page.js`:206-212) is left out. It is user input whose default is today plus two years.
- `updateNurse` occurs twice, identically, in `hospital-api-services.js` and `enhanced-services.js`. It is modelled once, as `HospitalApiServices.UpdateNurse`.
- `enhanced-services.js` reads from a `patientAPI` object that it does not define. The model gives `PatientById` and `SearchPatients` the fetched list, as the code evidently intends. For the same reason the rejection of their fetch is not modelled.
- `hospital-api-services.js` uses `physicianService`, `patientService`, `departmentService` and `appointmentService`, but neither defines nor imports them; it imports only `axios` and defines `affiliationService` itself. As written, each of `GetPhysicianStats`, `GetPatientStats`, `GetDepartmentStats` and `GetAppointmentStats` therefore throws a ReferenceError inside its `try` and rejects. The model gives these four functions the results the intended services would return, as `Response` parameters. The as-written ReferenceError rejection is not modelled.
- Ids are compared with `===` in the source. They are `nat` in the model wherever both sides are numbers from the server. They are a `JsValue` where the value can come from a `<select>` or a form, that is, where a string can meet a number.

## Findings

| source | as written | input that shows it | evidently intended | confidence | as-written member | corrected member |
|---|---|---|---|---|---|---|
| affiliated-with-component.js:35-38 | the rows of the first department are built by the closure of the first render, whose `physicians` and `departments` are still empty | departments `[Surgery (4)]`, physicians `[Ada (1)]`, affiliated ids `[1]`: the row shows 'Unknown' for physician and department | the rows are built with the lists just fetched | not executed | `AffiliatedWith.MountAsWritten` | `AffiliatedWith.Mount` |
| affiliated-with-component.js:78-81 | `e.target.value` is the option's text, and `d.DepartmentID === deptId` compares a number with a string | choosing any department option: every row's department name is 'Unknown' | the text is read back as the numeric id before it is stored and used | not executed | `AffiliatedWith.DepartmentChangeAsWritten` | `AffiliatedWith.DepartmentChange` |
| trained-in-component.js:36-39 | the first physician's certifications are named by the closure of the first render, whose `procedures` and `physicians` are still empty | physician `Ada (1)`, procedure `Bypass (7)`, one certification for treatment 7: it shows 'Unknown Procedure' and 'Unknown' | the certifications are named with the lists just fetched | not executed | `TrainedIn.MountAsWritten` | `TrainedIn.Mount` |
| trained-in-component.js:76-79 | `e.target.value` is the option's text, and `p.EmployeeID === physicianId` compares a number with a string | choosing any physician option: every certification's physician name is 'Unknown' | the text is read back as the numeric id before it is stored and used | not executed | `TrainedIn.PhysicianChangeAsWritten` | `TrainedIn.PhysicianChange` |

Proofs for the findings:

- `MountAsWrittenLosesNames`, `MountAsWrittenExample` and `PhysicianChangeAsWrittenLosesName` (or `DepartmentChangeAsWrittenLosesName`) prove the as-written behaviour.
- `MountShowsNames` and `PhysicianChangeShowsName` (or `DepartmentChangeShowsName`) prove the corrected behaviour.

The two certification views also disagree on "expiring soon":

- `trained-in-page.js` counts whole calendar months.
- `trained-in-component.js` compares against the instant three months on.

`TrainedIn.ExpiringSoonAgreesWithPage` and `TrainedIn.ExpiringSoonDiffersFromPage` state how far they agree.
