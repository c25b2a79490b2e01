# health_api booking engine and account flows, in Dafny

This project models the core of `health_api`, a Django REST service for
booking medical appointments.

**Booking engine** (`appointment_serializers.dfy`):
- `AppointmentSerializer.validate` checks a request against the professional
  and availability tables.
- `create` consumes the chosen availability. Either it books the block whole,
  or it narrows the block to the booked window and adds up to two free
  remainders. Then it inserts a `Pending` appointment.
- `update` merges a request into an appointment. It then gets or creates the
  appointment's visit history and stamps the visit date on it.

**Records and queries** (`appointment_models.dfy`, `booking_status.dfy`,
`appointment_views.dfy`):
- the records and their defaults;
- the one-to-one link from a visit history to an appointment, and what
  deleting an appointment does to it;
- the newest-first ordering of appointments;
- the querysets each endpoint exposes;
- the doctor's visit-history lookup and upsert.

**Account side** (`user_utils.dfy`, `user_models.dfy`,
`account_serializers.dfy`):
- the shared cache that holds verification codes under email addresses and
  email addresses under reset tokens;
- `User`'s cache methods;
- the sign-up, verification, password and profile serializers;
- `get_order_by`, the `generate_code` range and `custom_exception_handler`.

How the model represents things:
- **Time.** Times are integer seconds in UTC; the project runs with
  `TIME_ZONE = "UTC"` and `USE_TZ = True`.
  - `timedelta.days` is floor division by 86400.
  - `replace(hour=22, minute=59, second=0)` is the start of the day plus
    82740 seconds.
  - A `DateField` is a day number.
- **Tables.** The appointment tables are sequences in the class
  `AppointmentModels.Clinic`. User accounts and the cache are fields of
  `UserModels.Accounts`.
- **Primary keys.** A UUID key is a natural number. Keys that `uuid4` or
  `generate_code` would draw are method parameters; a precondition says each
  key is unused or each code is in range.
- **`.first()` and `.get()`.** `.first()` on a table with no `ordering`
  returns the match with the smallest primary key. `.get()` of a unique match
  is the same lookup.
- **Requester.** The requesting user's patient and professional records are
  optional keys. `None` stands for a user without one, for whom reading the
  relation raises `ObjectDoesNotExist`.

Behaviour of the code that the model keeps as written:
- **Equal start and end.** `validate` rejects a booking only when
  `start_time > end_time` (`appointments/serilaizers.py:86`). A window with
  `start == end` is therefore accepted (`Validate`).
- **Changing professional.** `update` assigns the requested professional and
  resets the status to `Pending` when it differs from the old one
  (`appointments/serilaizers.py:188-195`, `MergeUpdate`).
- **No re-allocation on update.** `update` never reads or writes the
  availability table (`appointments/serilaizers.py:187-210`, `Update`).
- **Remainder spans.** The remainders `create` adds and the booked slice do
  not cover the original block (`appointments/serilaizers.py:131-157`):
  - the time from 22:59 on the day before the booking up to the booking's
    start belongs to no record;
  - neither does the time from the booking's end up to the next midnight;
  - when the block starts after 22:59 on the day before the booking, the
    leading remainder ends before it starts (`LeadingInvertedIff`,
    `LeadingInvertedExample`).

## Model

| member | source | states |
|---|---|---|
| DateTimes.DaysOf | appointments/serilaizers.py:116-121 | the whole-day count `n` of a difference `d` satisfies `n*86400 <= d < (n+1)*86400`, the floor that `timedelta.days` takes |
| DateTimes.DateOf | appointments/serilaizers.py:209 | the calendar day of a time: the day whose 86400-second span contains it |
| DateTimes.TimeOfDay | appointments/serilaizers.py:136-137 | the seconds since midnight lie in `[0, 86400)` and rebuild the time together with its date |
| DateTimes.AtClock | appointments/serilaizers.py:136-137 | `replace(hour, minute, second)` keeps the date and sets the clock to exactly `h*3600+m*60+s` |
| DateTimes.DaysPositive | appointments/serilaizers.py:131 | `(x - y).days > 0` holds exactly when the difference is at least one whole day |
| DateTimes.SameDateZeroDays | appointments/serilaizers.py:116-125 | two times on one calendar day are zero whole days apart |
| BookingStatus.Label | appointments/choices.py:4-9 | every status is stored as one of the five labels `Cancelled`, `Pending`, `Accepted`, `Active`, `Completed` |
| BookingStatus.Parse | appointments/choices.py:4-9 | a stored string reads back to a status exactly when it is one of the five labels, and to the status with that label |
| BookingStatus.ParseLabel | appointments/choices.py:4-9 | every status survives being stored and read back |
| BookingStatus.LabelInjective | appointments/choices.py:4-9 | no two statuses share a stored label |
| AppointmentModels.NewAvailability | appointments/models.py:13-22 | a newly created availability is not booked and has the given professional and bounds |
| AppointmentModels.NewAppointment | appointments/models.py:28-46 | a newly created appointment is `Pending` and has `created_at` equal to the creation clock |
| AppointmentModels.NewVisitHistory | appointments/models.py:53-67 | a visit history created for an appointment links to it, and its visit date and text columns are null |
| AppointmentModels.Filter | appointments/views.py:30-37 | a `.filter(...)` keeps exactly the matching records, each as often as it occurs in the table |
| AppointmentModels.FirstByPk | appointments/serilaizers.py:102 | `.first()` on an unordered table gives `None` exactly when nothing matches; otherwise a match whose key is the smallest among all matches |
| AppointmentModels.InsertNewest | appointments/models.py:48-49 | inserting into a newest-first list keeps it newest first, and the list gains exactly that record |
| AppointmentModels.SortNewestFirst | appointments/models.py:48-49 | ordering by `-created_at` gives a newest-first list with the same records as before |
| AppointmentModels.Unlinked | appointments/models.py:55-57 | `SET_NULL`: no history links to any of the deleted appointments; a history that did loses only its link; all others are unchanged |
| AppointmentModels.AvailabilitiesAfterDelete | appointments/models.py:15-18 | `CASCADE` from the professional record: exactly the availabilities of other professionals survive, each as often as before, and keys stay unique |
| AppointmentModels.AppointmentsAfterDelete | appointments/models.py:30-36 | `CASCADE` from either record: exactly the appointments of neither record survive, each as often as before, and keys stay unique |
| AppointmentModels.DeletedAppointmentIds | appointments/models.py:30-36 | the keys of the deleted appointments are exactly those of the appointments of either record |
| AppointmentModels.HistoriesAfterDelete | appointments/models.py:55-62 | `CASCADE` and `SET_NULL` together: every surviving history belongs to neither record and links no deleted appointment, and each comes from a history of neither record, unchanged or with its link cleared; keys stay unique and the one-to-one link holds |
| AppointmentModels.Clinic.constructor | appointments/models.py:13-25 | a store with the given availabilities and no appointments or histories is valid |
| AppointmentModels.Clinic.DeleteAppointment | appointments/models.py:55-57 | deleting an appointment removes only its row, keeps every visit history and clears the link to it; keys stay unique and the one-to-one link holds |
| AppointmentModels.HistoriesAfterDeleteKeeps | appointments/models.py:55-62 | every history of neither record survives the deletion, unchanged, or with only its link cleared when it pointed at a deleted appointment |
| AppointmentModels.Clinic.DeleteParties | appointments/models.py:15-62 | deleting a user's patient and professional records removes them and cascades through the booking tables exactly as the three `AfterDelete` functions say; keys stay unique and the one-to-one link holds |
| AppointmentSerializers.Validate | appointments/serilaizers.py:72-104 | an unknown professional is rejected first. A status update is otherwise accepted without an availability. A booking with `start > end` is rejected (`start == end` passes). A booking is accepted exactly when some unbooked block of that professional covers the window, and then the chosen block is the covering one with the smallest key; when none covers it the error is "no suitable availability" |
| AppointmentSerializers.Allocate | appointments/serilaizers.py:116-157 | the original block is always booked. With equal whole-day spans it keeps its bounds and nothing is created. Otherwise it is narrowed to exactly the booking. A leading remainder exists iff the starts are at least a day apart, and runs from the block's start to 22:59 on the day before the booking. A trailing remainder exists iff end plus a day is within the block, and runs from midnight the day after the booking to the block's end. Both remainders are unbooked. At most two records are created |
| AppointmentSerializers.AllocationDisjoint | appointments/serilaizers.py:131-157 | the leading remainder ends before the booked slice starts; the trailing one starts after it ends and ends with the original block |
| AppointmentSerializers.LeadingInvertedIff | appointments/serilaizers.py:131-139 | the leading remainder ends before it starts exactly when the block starts after 22:59 on the day before the booking's date |
| AppointmentSerializers.LeadingInvertedExample | appointments/serilaizers.py:131-139 | a block from 23:30 on 2024-01-10 and a booking at 23:40 on 2024-01-11 create a leading remainder that ends 31 minutes before it starts |
| AppointmentSerializers.SameDayBlockConsumedWhole | appointments/serilaizers.py:116-127 | a block within one calendar day is booked whole, bounds untouched, by any booking inside it |
| AppointmentSerializers.SplitExample | appointments/serilaizers.py:116-157 | the worked example: a 2024-01-10..20 block and a one-hour booking on the 12th leave remainders 10th 00:00 to 11th 22:59 and 13th 00:00 to 20th 23:59 |
| AppointmentSerializers.ConsumeAvailability | appointments/serilaizers.py:125-157 | the availability table becomes the old one with the chosen block replaced by its booked form, followed by the created remainders; keys stay unique |
| AppointmentSerializers.Create | appointments/serilaizers.py:106-167 | creation succeeds exactly when the validated request carries an availability and the user has a patient record. A status-update request and a user without a patient record fail with nothing changed. Otherwise the table becomes the old one with the block replaced by its booked form from `Allocate`, followed by the remainders, and one `Pending` appointment is appended, with the requester's patient and the requested professional, window and note |
| AppointmentSerializers.Book | appointments/serilaizers.py:72-167 | a request `validate` rejects fails with that error; a status update fails for want of an availability; a user with no patient record fails; each failure changes nothing. Booking succeeds exactly when none of these holds, and then the availability table is what `Allocate` makes of the chosen block (at most two rows more) and exactly one `Pending` appointment is appended |
| AppointmentSerializers.MergeUpdate | appointments/serilaizers.py:187-201 | the saved appointment has the requested professional and window, the given note (else the old one), and the given status (else the old one), unless the professional changed, which forces `Pending` |
| AppointmentSerializers.FindVisit | appointments/serilaizers.py:204-208 | the get-or-create lookup finds a history linked to the appointment with its professional and patient, or reports that there is none |
| AppointmentSerializers.RecordVisit | appointments/serilaizers.py:204-210 | a history linked to the appointment with its professional and patient is reused, with only its visit date set to the start's date. When there is none and no history links the appointment, a fresh history for it, dated the same way, is appended and nothing else changes. When another history already links it, recording fails |
| AppointmentSerializers.RecordVisitOneToOne | appointments/serilaizers.py:204-210 | recording a visit keeps the one-to-one link, and afterwards exactly one history links the appointment |
| AppointmentSerializers.RecordVisitIdempotent | appointments/serilaizers.py:204-210 | a second update of the same appointment reuses the history the first one left and changes nothing more |
| AppointmentSerializers.ProfessionalChangeConflicts | appointments/serilaizers.py:189-208 | once a visit is recorded, an update that moves the appointment to another professional breaks the one-to-one constraint |
| AppointmentSerializers.SaveVisit | appointments/serilaizers.py:204-210 | the visit-history table becomes exactly what `RecordVisit` gives for the saved appointment (the reused history re-dated, or one fresh history appended), or stays as it was on a conflict; keys stay unique and the one-to-one link holds |
| AppointmentSerializers.Update | appointments/serilaizers.py:187-210 | the merged appointment is saved and availability is untouched. Then the histories become what `RecordVisit` gives; on a conflict they stay as they were, and the saved appointment stays |
| AppointmentViews.OpenAvailabilities | appointments/views.py:26-37 | the listing holds exactly the unbooked blocks of the queried professional, or of the requester's own record when no query is given; with neither it fails |
| AppointmentViews.ListingShowsBookable | appointments/views.py:26-37 | a booking (not a status update) passes `validate` exactly when the professional's listing shows a block spanning its window |
| AppointmentViews.AllocationUpdatesListing | appointments/views.py:30-37 | after an allocation, the professional's listing loses the consumed block and gains every remainder; every other listing is unchanged |
| AppointmentViews.Newest | appointments/models.py:48-49 | a listing is newest first and holds exactly the matching appointments, each as often as in the table |
| AppointmentViews.ProfessionalAppointments | appointments/views.py:68-71 | the admin list holds exactly the requester's appointments as a professional, newest first |
| AppointmentViews.PatientAppointments | appointments/views.py:81-84 | the patient list holds exactly the requester's appointments as a patient, newest first |
| AppointmentViews.ProfessionalPatients | users/views/account_views.py:322-332 | the professional's patient list holds that professional's appointments in every status except `Active`; a requester with no professional record is refused with that error |
| AppointmentViews.ListingsAgree | appointments/views.py:68-84 | an appointment appears in its patient's and its professional's lists, and in the professional's patient list exactly when it is not `Active` |
| AppointmentViews.PatientVisits | appointments/views.py:107-109 | the visit-history list holds exactly the requester's histories as a patient |
| AppointmentViews.RetrieveVisit | appointments/views.py:119-121 | a history is retrieved only when it has the key and belongs to the requester; any other key is not found |
| AppointmentViews.RetrieveMatchesList | appointments/views.py:107-121 | a history is retrievable exactly when it is listed |
| AppointmentViews.FindAppointment | appointments/views.py:94-97 | the scoped lookup finds an appointment with the key that belongs to the requester's scope, and reports not found exactly when there is none |
| AppointmentViews.UpdateAppointment | appointments/views.py:87-97 | an appointment outside the requester's scope, or a request `validate` rejects, fails with that error and changes nothing. Otherwise the appointment with that key is replaced by the merged one, and the histories become exactly what `RecordVisit` gives: the update succeeds then, or on a conflict fails after the appointment save, with the histories untouched |
| AppointmentViews.DestroyAppointment | appointments/views.py:48-58 | deletion succeeds exactly when the scoped lookup finds the appointment. An appointment outside the requester's scope changes nothing; otherwise only its row is removed and the history linked to it loses its link |
| AppointmentViews.AdminVisitLookup | appointments/views.py:130-136 | the doctor's lookup gives the history of that doctor linked to the given appointment (or unlinked, when no key is given) with the smallest key, or none |
| AppointmentViews.CheckVisitForm | appointments/serilaizers.py:239-257 | a visit-history form is valid exactly when it names an existing patient and an existing professional |
| AppointmentViews.ApplyVisitForm | appointments/serilaizers.py:239-257 | saving a form on a history writes each given column and keeps the key, the link and every absent column |
| AppointmentViews.VisitFromForm | appointments/serilaizers.py:239-257 | a history created from a form has no appointment link and null in every column the form leaves out |
| AppointmentViews.ApplyVisitFormIdempotent | appointments/serilaizers.py:239-257 | saving the same form twice changes nothing after the first time |
| AppointmentViews.AdminPutVisit | appointments/views.py:141-150 | saving succeeds exactly when the requester has a doctor record and the form is valid; otherwise nothing changes. On success the found history is updated from the form, or a new unlinked one is appended, and the one-to-one link holds |
| UserUtils.Decimal | users/models.py:94-95 | the text of a number is a non-empty string of digits |
| UserUtils.ParseDecimalRoundTrip | users/models.py:94-95 | reading back the text of a number gives the number |
| UserUtils.TokenKey | users/models.py:94-95 | a reset token's cache key never looks like an email address |
| UserUtils.TokenKeyInjective | users/models.py:94-95 | two different tokens never share a cache key |
| UserUtils.StoreCode | users/models.py:74-75 | after storing a code under an email, the email holds that code and every other key is unchanged |
| UserUtils.StoreToken | users/models.py:94-95 | after storing a token, its key holds the email and every other key is unchanged |
| UserUtils.CheckVerificationPin | users/utils.py:22-23 | the pin check holds exactly when storing that code under the email would leave the cache as it is, that is, when it is already stored there |
| UserUtils.StoredCodeMatches | users/models.py:73-82 | right after a code is stored, it matches and every other code does not |
| UserUtils.TokenKeepsPins | users/models.py:93-95 | storing a reset token never changes whether any email's pin matches |
| UserUtils.DeletedPinNeverMatches | users/models.py:89 | once the entry under an email is deleted, no code matches there |
| UserUtils.GeneratedCodesAccepted | users/utils.py:114-115 | every generated code lies in the range the code fields accept; 999999 is accepted but never generated |
| UserUtils.OrderBy | users/utils.py:98-99 | the ordering is `-` followed by the field for `dsc`, and the field unchanged for any other direction |
| UserUtils.OrderByReadBack | users/utils.py:98-99 | for a plain field name, the ordering starts with `-` exactly for `dsc`, and the field can be read back |
| UserUtils.HandleException | users/utils.py:142-169 | Django validation, integrity and not-found errors, and only those, become a validation error. Its detail is the first of `message_dict`, `{"non_field_errors": [message]}`, `{"non_field_errors": messages}` and `{"non_field_errors": [str(exc)]}` that applies. A bare `Exception` becomes an `APIException` with its message, or the handler raises when it has none. Anything else passes through |
| UserUtils.ConvertedDetailNonEmpty | users/utils.py:151-165 | a converted error always carries at least one message when the exception offered one |
| UserModels.FindByEmail | users/serializers/account_serializer.py:187-191 | the lookup finds a user with exactly that email, or reports that none has it |
| UserModels.FindByEmailUnique | users/models.py:35 | with unique emails, the lookup of a user's email finds that user |
| UserModels.Accounts.constructor | users/models.py:33-35 | an empty user table and cache are valid |
| UserModels.Accounts.SendVerificationEmail | users/models.py:73-79 | the cache stores the code under the user's email, after which that code matches |
| UserModels.Accounts.CheckVerificationPin | users/models.py:81-82 | the user's pin check holds exactly when storing that code under the user's email would leave the cache as it is |
| UserModels.Accounts.VerifyAccount | users/models.py:84-91 | a matching code marks the email verified, deletes the email's cache entry and returns true; any other code returns false and changes nothing |
| UserModels.Accounts.SendResetTokenEmail | users/models.py:93-99 | the cache stores the email under the token's key, and no user's pin check changes |
| AccountSerializers.ConfirmPassword | users/serializers/account_serializer.py:112-121 | the data passes exactly when password and confirmation are both present and equal, and then loses only the confirmation; when both are absent, the `pop` raises |
| AccountSerializers.FullAddress | users/serializers/account_serializer.py:80-88 | the full address is the first part, `", "`, the second, `", "`, the state, `", "` and the country, in that order, each missing part as empty |
| AccountSerializers.FullAddressHasFourParts | users/serializers/account_serializer.py:80-88 | when no part holds a comma, the full address holds exactly three |
| AccountSerializers.NewUser | users/serializers/account_serializer.py:123-135 | a signed-up user has the submitted email (also as username), names, gender, password and address parts, is unverified and active |
| AccountSerializers.FirstError | users/serializers/account_serializer.py:25-61 | nothing is reported exactly when every field passes; otherwise the error of some field all of whose predecessors pass |
| AccountSerializers.CheckSignUp | users/serializers/account_serializer.py:25-121 | sign-up data passes exactly when the names, gender, email, password and confirmation are present, the gender is `M` or `F`, the email is well formed and not taken ignoring case, the password is not blank, passes the validators and matches its confirmation. A failing field check is reported for the first failing field in field order; only then can the passwords differ |
| AccountSerializers.SignUpFieldOrder | users/serializers/account_serializer.py:25-61 | a missing first name is reported whatever else is wrong, and a gender outside the choices before a missing email |
| AccountSerializers.SignUp | users/serializers/account_serializer.py:123-135 | sign-up succeeds exactly when `CheckSignUp` passes; rejected data changes nothing. On success one unverified user, its patient record and a verification code under its email are added, and emails stay unique ignoring case |
| AccountSerializers.UnverifiedAccount | users/serializers/account_serializer.py:186-196 | an email passes exactly when it is well formed, a user has it and that user is not yet verified, and then it names that user; an unknown email and an already verified one are rejected |
| AccountSerializers.VerifyEmail | users/serializers/account_serializer.py:171-211 | the account and the code range are checked, then the pin: an in-range code that does not match is refused as an invalid code. On success the account is verified and the code deleted; the "expired" error after a passing pin check never arises; any failure changes nothing |
| AccountSerializers.ResendVerification | users/serializers/account_serializer.py:214-236 | a resend succeeds exactly when the email names an unverified account; a failure changes nothing; on success a fresh code replaces the stored one |
| AccountSerializers.ForgotPassword | users/serializers/account_serializer.py:239-253 | the request succeeds exactly when the email is well formed and some user has it; a failure changes nothing; on success a reset token holding the email is stored |
| AccountSerializers.TokenAccount | users/serializers/account_serializer.py:256-278 | a token out of range or not in the cache is refused; otherwise it names the user whose email the cache holds under it |
| AccountSerializers.ResetPassword | users/serializers/account_serializer.py:256-283 | the token is checked, then the new password (not blank, then the validators). A reset succeeds exactly when all pass and the token names an existing user. Then that user gets the new password and the token is deleted, so it is refused afterwards; any failure changes nothing |
| AccountSerializers.ResetTokenSingleUse | users/serializers/account_serializer.py:274-283 | after a reset, the same token is refused |
| AccountSerializers.CheckChangePassword | users/serializers/account_serializer.py:286-327 | a change passes exactly when the three fields are present and not blank, the requester has a username, the old password authenticates, the new one passes the validators and matches its confirmation. A failing field check is reported for the first failing field in field order |
| AccountSerializers.ChangePassword | users/serializers/account_serializer.py:286-332 | a change succeeds exactly when `CheckChangePassword` passes; a rejected change leaves the users as they were; otherwise only the requester's password changes |
| AccountSerializers.UpdateEmail | users/serializers/account_serializer.py:335-353 | the update succeeds exactly when the email is well formed and no user has it, ignoring case; a failure changes nothing. On success the new email becomes email and username, the account is unverified, and a code is stored under the new email |
| AccountSerializers.RenameUser | users/serializers/account_serializer.py:364-372 | each name comes from the request when given and is kept otherwise; no other column changes |
| AccountSerializers.RenameUserIdempotent | users/serializers/account_serializer.py:364-372 | a rename giving nothing changes nothing, and repeating a rename changes nothing more |
| AccountSerializers.UpdateName | users/serializers/account_serializer.py:356-372 | only the requester's names change, as `RenameUser` says |
| AccountSerializers.DeleteAccount | users/serializers/account_serializer.py:375-389 | a hard delete removes the user and, by cascade, its patient and professional records with the booking rows they own (as `DeleteParties` says); a soft delete only deactivates the user and leaves the booking tables alone |

## Left out

- **Notifications.** Sending mail (the booking, update, verification and
  reset mails handed to Celery) is a side effect outside the model.
- **Concurrency.** Transaction isolation and racing requests are not
  modelled. Every operation runs alone, and an atomic block that fails is
  modelled as changing nothing.
- **Cache expiry.** The cache timeout is not modelled; an expired entry is
  simply an absent key.
- **Passwords and authentication.** Django's password validators and
  `authenticate` are passed in as booleans. Hashing in `set_password` is not
  modelled; the model stores the submitted password as given.
- **Token creation.** `Token.objects.get_or_create` at sign-up is not
  modelled.
- **`UserManager`.** It is not part of this model. Its lookup by email is
  taken to match the email exactly, and `create_user` is taken to store the
  email as the username as well.
- **Other parts of the repository.** These are not part of this model:
  - floating point (the BMI of a patient);
  - avatar images and colours, random numbers, hashing, UUID generation and
    file names;
  - the settings, URL, admin and permission plumbing;
  - the choice sets other than the booking status;
  - the older `VisitHistory` and `Availability` classes in `users/models.py`.
- **Case folding.** Case-insensitive email comparison folds ASCII letters
  only; Unicode case folding is not modelled.
- **Malformed input.** Sub-second precision, time zones other than UTC, and
  values that do not parse (a query parameter that is not a UUID, a status
  outside the five choices) are not modelled.
- **Field errors.** DRF collects every field error of a request into one
  response. The model reports one: that of the first failing field in the
  serializer's field order, and only when every field passes, the error of
  `validate`.
- **Field checks.** Of DRF's field checks, the model keeps the required,
  blank, choice (`gender`), range and email `@` checks. Maximum lengths, the
  date of birth and the phone number (both optional) are not modelled.
- **Whitespace trimming.** DRF's `CharField` strips surrounding whitespace
  before its checks (`trim_whitespace`), so a whitespace-only value is blank
  there, and the stored names, email and password are the trimmed text.
  The model does not trim: its blank check is for the empty string only,
  and it stores values as submitted.
- **Other deletions.** Rows of the medical history, vital signs, test result
  and upload tables that the cascade also removes are not modelled.
- AccountSerializers.DeleteAccount: the user's patient and professional
  records are passed in as keys; the model does not store which user owns
  which record.
- AppointmentSerializers.Update: a `PATCH` that leaves out the professional,
  start or end raises `KeyError` in `validate`. The model's request always
  carries them, so the `.get(..., default)` fallbacks in `update` never apply.
- AppointmentViews.AdminVisitLookup: when nothing is found, the `get` view
  serializes `None`, which gives the serializer's empty form. The model
  returns no record.
- UserUtils.HandleException: what DRF's own handler then does with the
  result is not modelled. It builds a response for an API exception and
  re-raises anything else.
