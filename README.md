# Cadence core, modelled in Dafny

Cadence is a React Native app for tracking how a day is spent. The day is cut into
*timeslices*, each tied to an *activity*, an optional *state* (mood and energy) and *notes*.
The app draws a reflection grid of the timeslices, computes insights and streaks, and sends
notifications. This project models the app's logic in Dafny and proves properties of the
model:

- **Validation and errors.** Time input for the profile, sign-up and sign-in form checks,
  the Clerk and Supabase error parsers and classifiers, and the app version check.
- **List algebra.** The activity order store (stored order, moving one item, status changes),
  the activity helpers (filter, sort, group, find, validate, text colour) and the note helpers.
- **Stores.** Classes whose methods update fields in place, as the source's stores do: the
  dialog stack, the pending-timeslice queue, the quote backlog and scheduling of the
  notifications store, the notification settings, the in-app notification provider, the
  four resource stores (timeslices, states, notes, activities) and the reflection store.
- **Computations.** Activity, mood, note and streak insights; the reflection grid (timeslices
  bucketed by local date and half-hour slot); date-format parsing and formatting; the
  migration decryptor's classification and statistics; localized notification content and
  template interpolation; deep-link parsing, the modal route and callback links; the
  onboarding activity presets.
- **The translation-key script.** Reading keys from `t('…')` calls, flattening a JSON
  object to dotted keys, building and sorting the key tree.

Each core file is its own module (`ProfileUtils`, `DialogStore`, `TimeslicesResource`, …).
`Common`, `JsText` and `Models` hold shared helpers: JavaScript string functions such as
`trim`, `split` and `parseInt`, and the database rows.

Conventions:
- Strings are `seq<char>`.
- JavaScript numbers are `int`, or `real` where the source computes fractions.
- `null` and `undefined` are `Option.None`.
- A JavaScript object used as a dictionary is a `map`.
- The outcome of a backend call, a storage write, the clock and `Math.random()` are
  parameters of the methods that use them.
- A loop in the source is a `method` with a `while` loop. Its `ensures` ties the result to a
  specification function, and lemmas prove that function's properties.
- Where comments in the source and the code disagree, the model follows the code.

## Model

| member | source | states |
|---|---|---|
| ProfileUtils.HourOfValid | features/profile/utils.ts:14 | the hour part of a time the pattern accepts is at most 23 and is what `Number` reads from the text before the colon |
| ProfileUtils.HoursMinutes | features/profile/utils.ts:42-46 | a formatted time exists exactly when hours and minutes are numbers within 0..23 and 0..59, and it is a five-character "HH:MM" the pattern accepts |
| ProfileUtils.PaddedIsValid | features/profile/utils.ts:46 | zero-padded hours 0..23 and minutes 0..59 joined by a colon are a five-character time the pattern accepts |
| ProfileUtils.FormatTimeInput | features/profile/utils.ts:28-68 | empty input gives null; every non-null result is a zero-padded five-character "HH:MM" accepted by `isValidTimeFormat` |
| ProfileUtils.FormatColon | features/profile/utils.ts:35-46 | the colon branch yields only valid five-character times |
| ProfileUtils.FormatNoColon | features/profile/utils.ts:47-65 | the colon-free branch yields only valid five-character times |
| ProfileUtils.ValidTimeAccepted | features/profile/utils.ts:14-46 | every time the pattern accepts is accepted by `formatTimeInput`, which only adds the leading zero of a one-digit hour |
| ProfileUtils.FormatIdempotent | features/profile/utils.ts:28-68 | formatting a result of `formatTimeInput` again returns it unchanged |
| ProfileUtils.FormatWithOneColon | features/profile/utils.ts:32-46 | input cleaned to digits, one colon and digits is accepted exactly when both sides are non-empty, the hour is at most 23 and the minute at most 59, and the result pads both |
| ProfileUtils.FormatManyColons | features/profile/utils.ts:36-37 | input with two or more colons after cleaning is rejected |
| ProfileUtils.FormatWithoutColon | features/profile/utils.ts:47-67 | without a colon, one or two digits are an hour with ":00", three or four digits are hours then two minute digits, each range-checked, and any other length gives null |
| ProfileUtils.TwoDigitsInjective | features/profile/utils.ts:46 | two two-digit strings with the same value are equal, so padding loses nothing |
| ProfileUtils.LiveKeepsFirstFourDigits | features/profile/utils.ts:76-97 | the live format keeps at most the first four digits in order, returns up to two digits as they are, puts the colon after the first digit for three and after the second for four or more, and is at most five characters |
| ProfileUtils.FormatTimeInputLive | features/profile/utils.ts:76-97 | the live formatting of typed digits; LiveKeepsFirstFourDigits states what it keeps |
| ProfileUtils.ReasonableTimes | features/profile/utils.ts:104-123 | a wake time is reasonable exactly when it is valid with an hour in 4..12; a sleep time exactly when it is valid with an hour of 20 or more or 2 or less |
| ProfileUtils.IsReasonableWakeTime | features/profile/utils.ts:104-112 | a valid time with an hour from 4 to 12; ReasonableTimes states it |
| ProfileUtils.IsReasonableSleepTime | features/profile/utils.ts:117-127 | a valid time with an hour of 20 or later or 2 or earlier; ReasonableTimes states it |
| ProfileUtils.TimeValidationCharacterised | features/profile/utils.ts:132-151 | there is no error exactly when the input formats to a time whose hour suits its kind; otherwise the error is the first failing check: required, format, then range |
| ProfileUtils.GetTimeValidationError | features/profile/utils.ts:132-151 | the error text for a time of the given kind; TimeValidationCharacterised states when it is empty |
| SharedAuthValidation.ValidateNameAccepts | shared/auth/utils/validation.ts:8-19 | a trimmed name "first rest" with a space-free first word is accepted exactly when the text after the first space does not start with a blank second word; a double space after the first word is the "both names" error |
| SharedAuthValidation.ValidateName | shared/auth/utils/validation.ts:8-19 | the name check; ValidateNameAccepts, TrimmedNameParts and ValidateNameSingleWord state its results |
| SharedAuthValidation.TrimmedNameParts | shared/auth/utils/validation.ts:13-18 | on an already trimmed name the split-and-check decides acceptance by the second space-separated part alone |
| SharedAuthValidation.ValidateNameSingleWord | shared/auth/utils/validation.ts:13-16 | a trimmed name of two or more characters without a space is rejected as lacking a last name |
| SharedAuthValidation.ValidateEmailField | shared/auth/utils/validation.ts:22-26 | empty email is "required"; a non-empty email is "invalid" exactly when the pattern rejects it; there is no error exactly when the pattern accepts it |
| SharedAuthValidation.FirstBrokenSpec | shared/auth/utils/validation.ts:31-39 | the password checks report the first rule in order that fails, and none exactly when all hold |
| SharedAuthValidation.PasswordFieldFirstBroken | shared/auth/utils/validation.ts:29-41 | an empty password is "required", otherwise the message of the first failing rule (length 10, lower, upper, digit, special); no error exactly when every rule holds |
| SharedAuthValidation.ValidatePasswordField | shared/auth/utils/validation.ts:29-41 | the password field check; PasswordFieldFirstBroken states its results |
| SharedAuthValidation.ValidateRepeatPasswordField | shared/auth/utils/validation.ts:44-51 | an empty repeat asks for confirmation; a non-empty one passes exactly when it equals the password |
| SharedAuthValidation.ValidatePassword | shared/auth/utils/validation.ts:58-123 | the result is valid exactly when it carries no error |
| SharedAuthValidation.ValidatePasswordOrder | shared/auth/utils/validation.ts:63-123 | a mismatch is reported before anything else; the terms error is reported exactly when the passwords match and pass every rule but terms were not accepted; matching passwords get the first failing rule's message |
| AuthFormValidation.CalculatePasswordStrength | features/auth/utils/validation.ts:18-46 | the score counts the five requirements met, is at most 5, is 5 exactly when all hold and 0 exactly when none do, and the label and colour are those of the score |
| AuthFormValidation.StrengthMonotone | features/auth/utils/validation.ts:18-29 | appending a character never lowers the strength score |
| AuthFormValidation.RequirementsGrow | features/auth/utils/validation.ts:21-27 | every requirement met by a password is still met after appending a character |
| AuthFormValidation.ValidateLoginForm | features/auth/utils/validation.ts:49-66 | errors are keyed only by email and password; email errs exactly when missing or malformed, password exactly when empty; valid exactly when there are no errors |
| AuthFormValidation.PasswordError | features/auth/utils/validation.ts:78-87 | empty is "required", shorter than the minimum is "too short", otherwise "weak" exactly when the strength score is below 3 |
| AuthFormValidation.ConfirmError | features/auth/utils/validation.ts:89-93 | no error exactly when the confirmation is non-empty and equal to the password; empty asks for confirmation; different is a mismatch |
| AuthFormValidation.FullNameError | features/auth/utils/validation.ts:95-97 | the name errs exactly when it is blank after trimming |
| AuthFormValidation.ValidateSignupForm | features/auth/utils/validation.ts:69-107 | each of email, password, confirmation, name and terms has an error exactly when its own check fails, with that check's message; valid exactly when there are no errors |
| AuthFormValidation.ValidateResetPasswordForm | features/auth/utils/validation.ts:110-125 | only the email can err, exactly when missing or malformed; valid exactly when it does not |
| ClerkErrors.Route | shared/auth/utils/errorHandler.ts:61-80 | an error goes to the general field exactly when its parameter name is none of email_address, first_name, last_name and password |
| ClerkErrors.SetField | shared/auth/utils/errorHandler.ts:61-80 | writing one field of the mapping sets that field and leaves every other field as it was |
| ClerkErrors.Messages | shared/auth/utils/errorHandler.ts:54 | each error's message is its `message`, or its `longMessage` when that is empty, one per error in order |
| ClerkErrors.CollectEntries | shared/auth/utils/errorHandler.ts:50-81 | after the loop each named field holds the message of the last error routed to it, the general field the first general error's message, the collected messages are the non-empty ones in order, and a non-empty list sets some field |
| ClerkErrors.ParseClerkErrors | shared/auth/utils/errorHandler.ts:21-106 | a falsy error gives the fixed fallback everywhere; an error without a non-empty `errors` array gives its message, else its text, else the fallback; otherwise fields, general error and toast come from the collected entries, and `hasErrors` says whether any field is set |
| ClerkErrors.LastRoutedIsLast | shared/auth/utils/errorHandler.ts:61-73 | a named field is unset exactly when no error is routed to it, and otherwise holds the message of an error routed to it after which no other is |
| ClerkErrors.LastRoutedNone | shared/auth/utils/errorHandler.ts:61-73 | a named field stays null exactly when no error names it |
| ClerkErrors.LastRoutedSome | shared/auth/utils/errorHandler.ts:61-73 | a set named field holds the message of the last error that names it |
| ClerkErrors.FirstGeneral | shared/auth/utils/errorHandler.ts:74-78 | the first non-empty general message, when there is one, is non-empty |
| ClerkErrors.GeneralIsFirst | shared/auth/utils/errorHandler.ts:74-78 | the general field holds the first non-empty general message; if every general message is empty it ends as the empty string, and it stays null when no error is general |
| ClerkErrors.FirstGeneralAppend | shared/auth/utils/errorHandler.ts:74-78 | a later general error replaces the general field only while no non-empty general message has been seen |
| ClerkErrors.ToastIsFirstMessage | shared/auth/utils/errorHandler.ts:56-86 | there is no toast exactly when every error's message is empty, and otherwise the toast is the first non-empty message |
| ClerkErrors.AllEmptyIff | shared/auth/utils/errorHandler.ts:56-58 | no message is collected exactly when all messages are empty |
| ClerkErrors.ClearField | shared/auth/utils/errorHandler.ts:113-119 | clearing a field nulls it and keeps the others |
| ClerkErrors.ClearAll | shared/auth/utils/errorHandler.ts:125-135 | clearing all leaves every field null and no error present |
| ClerkErrors.ClerkMessage | shared/auth/utils/errorHandler.ts:140-153 | a message exists exactly for the eight known codes |
| ClerkErrors.GetClerkErrorMessage | shared/auth/utils/errorHandler.ts:161-168 | a known code gives its non-empty message, any other code the fallback |
| ClerkErrors.ClerkMessageNonEmpty | shared/auth/utils/errorHandler.ts:140-153 | every known code's message is non-empty, so the fallback is used only for unknown codes |
| AuthErrors.FirstMatchingGroupSpec | features/auth/utils/errorHandler.ts:107-113 | the pattern classification is the first group, in declaration order, one of whose patterns the lower-cased message contains, and none exactly when no group matches |
| AuthErrors.ClassifyAuthErrorOrder | features/auth/utils/errorHandler.ts:86-120 | a falsy error is unknown; a mapped status code wins, then the too-many-requests code or status 429, then the message patterns, then a status of 500 or more is a network error, else unknown |
| AuthErrors.ClassifyAuthError | features/auth/utils/errorHandler.ts:86-120 | the error type from the status code, the rate-limit code and the message patterns, in that order; ClassifyAuthErrorOrder and ClassifiedByPattern state the order |
| AuthErrors.ClassifiedByPattern | features/auth/utils/errorHandler.ts:107-113 | when the patterns decide, the type is that of the first matching group |
| AuthErrors.TimeoutEscapesUnion | features/auth/utils/errorHandler.ts:68-113 | a message matching only the timeout patterns is classified as "timeout", a type outside the declared union |
| AuthErrors.SkipUnmatchedGroups | features/auth/utils/errorHandler.ts:107-113 | groups that do not match can be skipped without changing the classification |
| AuthErrors.GetErrorMessage | features/auth/utils/errorHandler.ts:125-168 | every declared type gets a non-empty message: the translation or its English default, for unknown the original message first; the timeout type gets none |
| AuthErrors.DefaultMessage | features/auth/utils/errorHandler.ts:130-165 | each default English message is non-empty |
| AuthErrors.ProcessAuthError | features/auth/utils/errorHandler.ts:173-192 | the type is the classification; the original message is kept exactly when the type is unknown and the message is meaningful (non-empty, longer than five characters, without "undefined") |
| AuthErrors.HandleAuthError | features/auth/utils/errorHandler.ts:200-226 | the handled error carries the classified type and a non-empty user message, which is the original one for a meaningful unknown error; a timeout has no message |
| AuthErrors.HandleAuthResponse | features/auth/utils/errorHandler.ts:255-271 | the result is true exactly on success with data, calling the success callback; otherwise a non-empty error string calls the error callback with that message processed, and nothing is called otherwise |
| AuthErrors.ResponseErrorByMessage | features/auth/utils/errorHandler.ts:265 | an error built from a response string is classified by the message patterns alone |
| AppUpdate.VersionParts | shared/services/AppUpdateService.ts:185-186 | a version has one numeric-or-NaN component per dot-separated part, and at least one |
| AppUpdate.CompareVersions | shared/services/AppUpdateService.ts:184-199 | the comparison is -1, 0 or 1 and equals the lexicographic order of the components, a missing or unreadable component counting as 0 |
| AppUpdate.CompareParts | shared/services/AppUpdateService.ts:188-198 | the loop over the longer length returns the verdict of the first differing component |
| AppUpdate.CompareFromLexicographic | shared/services/AppUpdateService.ts:190-198 | the result is 0 exactly when all components agree and -1 exactly when at the first difference the left component is smaller |
| AppUpdate.CompareFromAntisymmetric | shared/services/AppUpdateService.ts:190-198 | swapping the versions negates the comparison |
| AppUpdate.CompareFromReflexive | shared/services/AppUpdateService.ts:190-198 | a version compares equal to itself |
| AppUpdate.VersionOrderProperties | shared/services/AppUpdateService.ts:184-199 | version comparison is reflexive and antisymmetric |
| AppUpdate.TrailingZero | shared/services/AppUpdateService.ts:191-192 | appending ".0" to a version does not change how it compares |
| AppUpdate.IsUpdateRequired | shared/services/AppUpdateService.ts:206-240 | an update is required exactly when the latest major is greater, or the majors are equal and the latest minor is greater, after padding to three components |
| AppUpdate.RequiredIsNewer | shared/services/AppUpdateService.ts:206-240 | a required update is to a strictly newer version |
| AppUpdate.PatchOnlyNotRequired | shared/services/AppUpdateService.ts:203-225 | versions differing only from the patch component on never require an update |
| AppUpdate.GetCurrentVersion | shared/services/AppUpdateService.ts:42-52 | the native version when there is one, otherwise "unknown"; never empty |
| AppUpdate.CheckIOSUpdate | shared/services/AppUpdateService.ts:72-131 | a failed or empty lookup gives no update and the App Store link; otherwise the first result's version and link, an update available exactly when the current version is older and required only when also major or minor newer |
| AppUpdate.CheckForUpdates | shared/services/AppUpdateService.ts:160-178 | iOS checks the store; Android never reports an update and links the Play Store; any other platform reports no update and no link; a required update is always an available one |
| AppUpdate.GetStoreUrl | shared/services/AppUpdateService.ts:245-252 | the Play Store link exactly on Android, the App Store link otherwise |
| PersonaService.PersonaOf | features/profile/services/PersonaService.ts:14-22 | early bird exactly when waking by 6 and sleeping by 22; night owl exactly when not that and waking from 8 and sleeping from 24; balanced exactly at 7 and 23; an unreadable hour gives flexible |
| PersonaService.DetectPersona | features/profile/services/PersonaService.ts:4-34 | the persona comes from the hours before the first colon, with its suggested activities and the locale passed through |
| PersonaService.SuggestedActivities | features/profile/services/PersonaService.ts:36-81 | seven suggestions per persona, six for flexible |
| PersonaService.SuggestionsIgnoreLocale | features/profile/services/PersonaService.ts:78-80 | the suggestions do not depend on the locale |
| PersonaService.HourFieldOfValid | features/profile/services/PersonaService.ts:9-10 | for a valid "H:MM" time the parsed hour is the time's hour |
| PersonaService.NoNightOwlForValidSleep | features/profile/services/PersonaService.ts:16 | no valid sleep time reaches hour 24, so such a profile is never a night owl |
| PersonaService.CreateRestActivity | features/profile/services/PersonaService.ts:83-96 | the rest activity is named "Rest", keyed by the user, system-generated and runs from sleep time to wake time |
| PersonaService.ValidateTimeRange | features/profile/services/PersonaService.ts:98-139 | the range is valid exactly when no error is given |
| PersonaService.TimeRangeRule | features/profile/services/PersonaService.ts:111-138 | a sleep time not before the wake time is accepted; otherwise the next-day duration must lie between 4 and 16 hours, with the short or long message when it does not |
| PersonaService.UnreadableTimesAccepted | features/profile/services/PersonaService.ts:105-117 | when a minute field cannot be parsed the range is accepted, since NaN comparisons fall through |
| NoteUtils.HasNoteContent | features/notes/utils/noteUtils.ts:11-20 | a note has content when its trimmed message is not empty; HasContentIffNotBlank states it without trim |
| NoteUtils.HasContentIffNotBlank | features/notes/utils/noteUtils.ts:18-20 | a note has content exactly when its message exists and is not blank after trimming |
| NoteUtils.GetNotesWithContent | features/notes/utils/noteUtils.ts:30-32 | the kept notes are exactly the notes that have content, and no more than the input |
| NoteUtils.CountNotesWithContent | features/notes/utils/noteUtils.ts:37-39 | the count is the number of notes that have content, so never more than the number of notes |
| NoteUtils.AnyContentIffCountPositive | features/notes/utils/noteUtils.ts:37-51 | some note has content exactly when the count of such notes is positive |
| NoteUtils.HasAnyNoteContent | features/notes/utils/noteUtils.ts:49-51 | some note has content; AnyContentIffCountPositive ties it to the count |
| NoteUtils.HasUnsavedChanges | features/notes/utils/noteUtils.ts:56-58 | some note is being edited; UnsavedChangesNeedNewContent states its consequences |
| NoteUtils.IsNoteBeingEdited | features/notes/utils/noteUtils.ts:103-105 | a new note with content; UnsavedChangesNeedNewContent uses it |
| NoteUtils.UnsavedChangesNeedNewContent | features/notes/utils/noteUtils.ts:56-58 | unsaved changes imply some note with content, and there are none when no note is new |
| NoteUtils.CreateEmptyNote | features/notes/utils/noteUtils.ts:63-75 | a fresh note is new, has an empty message and no content, no ids, and is neither saving, failed nor pinned |
| NoteUtils.NoteToNoteItem | features/notes/utils/noteUtils.ts:82-94 | a stored note becomes a non-new, idle, unpinned item keeping its ids, with a missing message read as empty |
| NoteUtils.PresentNotes | features/notes/utils/noteUtils.ts:97 | `filter(Boolean)` keeps a note exactly when it is present in the list, and never lengthens it |
| NoteUtils.NotesToNoteItems | features/notes/utils/noteUtils.ts:96-98 | the items are the present notes, in order, each converted as `noteToNoteItem` converts it: one item per present note, none for a missing one |
| NoteUtils.SpaceSplitCountsWords | features/notes/utils/noteUtils.ts:111 | splitting on white-space runs and dropping empty pieces leaves one piece per word, and the first piece is empty exactly when the text is empty or starts with white space |
| NoteUtils.GetNoteWordCount | features/notes/utils/noteUtils.ts:110-112 | a missing message has no words; otherwise the count is the number of words of the trimmed message |
| NoteUtils.GetNoteCharCount | features/notes/utils/noteUtils.ts:117-119 | the length of the message, 0 when it is missing |
| NoteUtils.TruncateNoteMessage | features/notes/utils/noteUtils.ts:124-130 | a message that fits is returned as is; a longer one keeps its first `maxLength - 3` characters (none when that is negative) and gains "...", so it has exactly `maxLength` characters when `maxLength` is at least 3 |
| NoteUtils.CollapseNewlines | features/notes/utils/noteUtils.ts:143 | the result has no line feed and is never longer than the text |
| NoteUtils.CollapseIsSqueezeThenSpace | features/notes/utils/noteUtils.ts:143 | collapsing equals cutting every run of line feeds down to one line feed and turning it into a space: every other character is kept, in order, and each run becomes exactly one space |
| NoteUtils.CollapseNoNewlines | features/notes/utils/noteUtils.ts:143 | a text without newlines is unchanged |
| NoteUtils.FormatNotePreview | features/notes/utils/noteUtils.ts:135-146 | a missing or blank message previews as "Empty note"; otherwise the trimmed message on one line, truncated only when a non-zero maximum is given |
| NoteUtils.IsValidEnergyLevel | features/notes/utils/noteUtils.ts:151-153 | an energy level is valid when it is a whole number from 0 to 5; FormatEnergyLevel states the labels that follow |
| NoteUtils.FormatEnergyLevel | features/notes/utils/noteUtils.ts:151-165 | an invalid or zero level is "No energy set"; an integer 1..5 gets its label; the result is never empty and never "Unknown" |
| OrderStorage.IdsWithStatus | shared/storage/activities/orderStorage.ts:23-29 | the ids collected are exactly those of activities with the given status and a non-empty id |
| OrderStorage.SaveOrderMerge | shared/storage/activities/orderStorage.ts:19-40 | the saved enabled list is the enabled ids in order; a preserving save keeps the old disabled ids first in their old order, adds the new disabled ids and has no duplicates; a non-preserving save stores only the current disabled ids |
| OrderStorage.FindById | shared/storage/activities/orderStorage.ts:87-105 | the found activity is in the pool with that id, and nothing is found exactly when no activity has it |
| OrderStorage.PickedFollowsIds | shared/storage/activities/orderStorage.ts:86-91 | the activities picked by the stored ids appear in the stored order, one per id that is found |
| OrderStorage.NullIdEnabledDropped | shared/storage/activities/orderStorage.ts:93-97 | an enabled activity without an id disappears from the sorted list when a stored order exists |
| OrderStorage.SortIsPermutation | shared/storage/activities/orderStorage.ts:66-127 | when every activity has a distinct id and the stored lists have no duplicates, sorting only reorders the activities |
| OrderStorage.SortedByStoredOrder | shared/storage/activities/orderStorage.ts:66-127 | without a stored order or with an empty stored enabled list the input; otherwise the enabled activities in stored order, then the unlisted enabled ones, then the disabled ones likewise (as they come when no disabled order is stored), then the others; PickedFollowsIds, SortIsPermutation and NullIdEnabledDropped state its properties |
| OrderStorage.PickedAndUnlisted | shared/storage/activities/orderStorage.ts:86-97 | the picked and the remaining activities together are the pool, each once |
| OrderStorage.StatusPartition | shared/storage/activities/orderStorage.ts:74-80 | enabled, disabled and other activities partition the list |
| OrderStorage.Move | shared/storage/activities/orderStorage.ts:149-151 | moving an item from one index to another keeps the length, puts it at the target and only reorders |
| OrderStorage.MoveKeepsOthers | shared/storage/activities/orderStorage.ts:149-151 | apart from the moved item, the order of the others is unchanged |
| OrderStorage.MoveInverse | shared/storage/activities/orderStorage.ts:149-151 | moving back from the target to the source restores the list |
| OrderStorage.StatusChangeSaved | shared/storage/activities/orderStorage.ts:170-185 | only the matching activities change, and only in status; after the save, an existing non-empty id is in the stored list of its new status |
| OrderStorage.RemoveIdFacts | shared/storage/activities/orderStorage.ts:199-200 | filtering out an id removes exactly that id, changes nothing when it is absent and is idempotent |
| OrderStorage.PickInOrder | shared/storage/activities/orderStorage.ts:86-91 | the loop picks what the declarative definition picks |
| OrderStorage.CollectUnlisted | shared/storage/activities/orderStorage.ts:93-97 | the loop collects the activities with an id not in the stored list |
| OrderStorage.ActivityOrderStorage.constructor | shared/storage/activities/orderStorage.ts:11-13 | storage starts with the given stored order |
| OrderStorage.ActivityOrderStorage.GetOrder | shared/storage/activities/orderStorage.ts:49-61 | a successful read returns the stored order, or an empty order stamped now when none is stored |
| OrderStorage.ActivityOrderStorage.SaveOrder | shared/storage/activities/orderStorage.ts:19-44 | success is the write outcome; a successful write stores the merged order, a failed one leaves storage unchanged |
| OrderStorage.ActivityOrderStorage.SortActivitiesByStoredOrder | shared/storage/activities/orderStorage.ts:66-127 | the result is sorted-by-stored-order, and without a stored order or with an empty enabled list it is the input unchanged |
| OrderStorage.ActivityOrderStorage.ReorderActivity | shared/storage/activities/orderStorage.ts:132-165 | out-of-range indexes fail without saving; otherwise the enabled activities with one moved, followed by the rest, are saved and returned when the write succeeds |
| OrderStorage.ActivityOrderStorage.UpdateActivityStatus | shared/storage/activities/orderStorage.ts:170-185 | the status-changed list is saved with the disabled order preserved, and returned exactly when the write succeeds |
| OrderStorage.ActivityOrderStorage.RemoveFromOrder | shared/storage/activities/orderStorage.ts:190-206 | with a successful read and write the id is removed from both stored lists; otherwise storage is unchanged and the result is false |
| OrderStorage.ActivityOrderStorage.ClearOrder | shared/storage/activities/orderStorage.ts:211-214 | a successful removal clears the stored order |
| OrderStorage.ActivityOrderStorage.GetOrderStats | shared/storage/activities/orderStorage.ts:219-235 | a failed read gives zero counts and no date; otherwise the lengths of the stored lists and their date |
| DialogStore.NewDialog | shared/stores/useDialogStore.ts:74-82 | a new dialog carries the id, type, view binding and z-index given, with props defaulting to empty, collapsed to false and position to the dock |
| DialogStore.ById | shared/stores/useDialogStore.ts:223-226 | the record built from a list is keyed by each dialog's own id and holds every listed dialog's id, each entry from the list |
| DialogStore.KeepPersistentIdempotent | shared/stores/useDialogStore.ts:91-98 | keeping the persistent dialogs keeps exactly those with preventClose, and doing it twice changes nothing more |
| DialogStore.CloseThenRestore | shared/stores/useDialogStore.ts:187-236 | stashing the dialogs bound to a view and restoring that stash gives back the original record |
| DialogStore.KeepWhere | shared/stores/useDialogStore.ts:93-97 | the loop copies exactly the entries that pass the test |
| DialogStore.ValuesBoundTo | shared/stores/useDialogStore.ts:158-160 | the loop collects a stash of exactly the dialogs bound to the view |
| DialogStore.MaxZIndex | shared/stores/useDialogStore.ts:128-131 | the maximum z-index (0 for none) is at least every dialog's and is attained by one when positive |
| DialogStore.RestoreAll | shared/stores/useDialogStore.ts:223-226 | the restore loop builds the id-keyed record of the stash |
| DialogStore.CloseRestoreRoundTrip | shared/stores/useDialogStore.ts:187-236 | closing a view's dialogs and restoring them gives back the dialogs and leaves the other stash entries as they were |
| DialogStore.DialogStore.constructor | shared/stores/useDialogStore.ts:45-47 | no dialogs, no view and nothing stashed |
| DialogStore.DialogStore.OpenDialog | shared/stores/useDialogStore.ts:49-88 | a persistent request reuses a persistent dialog of its type without changing anything; otherwise non-persistent dialogs close and the new dialog is added with a z-index one above the survivor count, under the given or generated id |
| DialogStore.DialogStore.CloseAll | shared/stores/useDialogStore.ts:91-98 | exactly the persistent dialogs remain |
| DialogStore.DialogStore.ForceCloseAll | shared/stores/useDialogStore.ts:101 | every dialog closes |
| DialogStore.DialogStore.CloseDialog | shared/stores/useDialogStore.ts:103-112 | a missing or persistent dialog stays, any other is removed and nothing else changes |
| DialogStore.DialogStore.ToggleCollapse | shared/stores/useDialogStore.ts:114-124 | flips the collapsed flag of an open dialog and changes nothing else |
| DialogStore.DialogStore.BringToFront | shared/stores/useDialogStore.ts:126-137 | an open dialog gets a z-index one above the largest, strictly above every other dialog's, and nothing else changes |
| DialogStore.DialogStore.SetDialogProps | shared/stores/useDialogStore.ts:139-149 | an open dialog's props become the old ones overridden by the new ones; nothing else changes |
| DialogStore.DialogStore.GetDialog | shared/stores/useDialogStore.ts:151 | the dialog under the id, or none exactly when it is not open |
| DialogStore.DialogStore.SetCurrentView | shared/stores/useDialogStore.ts:154-184 | the view is set; leaving a different non-empty view stashes the dialogs bound to it under its name and closes them |
| DialogStore.DialogStore.CloseViewSpecificDialogs | shared/stores/useDialogStore.ts:187-213 | with no dialog bound to the view nothing changes; otherwise they are stashed under the view and closed |
| DialogStore.DialogStore.RestoreViewSpecificDialogs | shared/stores/useDialogStore.ts:216-236 | a non-empty stash is put back over the open dialogs and its entry removed; otherwise nothing changes |
| PendingTimeslices.AddIfNew | features/timeline/shared/hooks/usePendingTimeslicesStore.ts:53-68 | after adding, a timeslice with that start is pending; an existing start leaves the list unchanged, a new one is appended |
| PendingTimeslices.AddKeepsDistinct | features/timeline/shared/hooks/usePendingTimeslicesStore.ts:53-68 | adding keeps the pending start times distinct |
| PendingTimeslices.RemoveFacts | features/timeline/shared/hooks/usePendingTimeslicesStore.ts:87-93 | removal drops exactly the timeslices with that start and keeps start times distinct |
| PendingTimeslices.AddThenRemove | features/timeline/shared/hooks/usePendingTimeslicesStore.ts:53-93 | adding a new start and removing it restores the list |
| PendingTimeslices.PendingTimeslicesStore.constructor | features/timeline/shared/hooks/usePendingTimeslicesStore.ts:50-51 | both lists start empty |
| PendingTimeslices.PendingTimeslicesStore.AddPendingTimeslice | features/timeline/shared/hooks/usePendingTimeslicesStore.ts:53-68 | adds to the pending timeslices if its start is new, leaving the updates |
| PendingTimeslices.PendingTimeslicesStore.AddPendingUpdate | features/timeline/shared/hooks/usePendingTimeslicesStore.ts:70-85 | adds to the pending updates if its start is new, leaving the timeslices |
| PendingTimeslices.PendingTimeslicesStore.RemovePendingTimeslice | features/timeline/shared/hooks/usePendingTimeslicesStore.ts:87-93 | removes the pending timeslices with that start |
| PendingTimeslices.PendingTimeslicesStore.RemovePendingUpdate | features/timeline/shared/hooks/usePendingTimeslicesStore.ts:95-101 | removes the pending updates with that start |
| PendingTimeslices.PendingTimeslicesStore.ClearPendingTimeslices | features/timeline/shared/hooks/usePendingTimeslicesStore.ts:103-105 | empties the timeslices only |
| PendingTimeslices.PendingTimeslicesStore.ClearPendingUpdates | features/timeline/shared/hooks/usePendingTimeslicesStore.ts:107-109 | empties the updates only |
| PendingTimeslices.PendingTimeslicesStore.ClearAll | features/timeline/shared/hooks/usePendingTimeslicesStore.ts:111-113 | empties both lists |
| PendingTimeslices.PendingTimeslicesStore.HasAnyPending | features/timeline/shared/hooks/usePendingTimeslicesStore.ts:123-128 | true exactly when either list is non-empty |
| NotificationsStore.Catalogue | shared/notifications/stores/notificationsStore.ts:113-129 | the catalogue built from a table has one message per text |
| NotificationsStore.CatalogueLayout | shared/notifications/stores/notificationsStore.ts:61-129 | the 42 messages are the 10 midday texts ("midday_i"), then the 27 evening texts ("evening_i"), then the 5 streak texts ("streak_i"), each with its index-based id and type |
| NotificationsStore.CadenceIdsDistinct | shared/notifications/stores/notificationsStore.ts:113-129 | no two catalogue messages share an id |
| NotificationsStore.MarkingShrinksBacklog | shared/notifications/stores/notificationsStore.ts:306-330 | marking an available quote as used strictly shrinks the set of available quotes, so the backlog runs out |
| NotificationsStore.NoGrowth | shared/notifications/stores/notificationsStore.ts:308-330 | marking any id used never makes more quotes available |
| NotificationsStore.TitleForType | shared/notifications/stores/notificationsStore.ts:145-156 | the generic "Cadence Reminder" title is used exactly for types other than the three known ones |
| NotificationsStore.ScheduleFor | shared/notifications/stores/notificationsStore.ts:241-266 | one notification per enabled switch among morning, midday and evening |
| NotificationsStore.ScheduleKinds | shared/notifications/stores/notificationsStore.ts:241-266 | every scheduled notification is a midday or evening reflection, an evening one exactly when evening reminders are on, and the weekly-streaks switch changes nothing |
| NotificationsStore.RequestFor | shared/notifications/stores/notificationsStore.ts:270-284 | each request keeps the notification's type, takes the title for it and repeats daily |
| NotificationsStore.RequestsFor | shared/notifications/stores/notificationsStore.ts:269-285 | one request per scheduled notification |
| NotificationsStore.SendRequests | shared/notifications/stores/notificationsStore.ts:269-285 | the loop issues exactly the requests of the scheduled list in order |
| NotificationsStore.RequestOfClockTime | shared/notifications/stores/notificationsStore.ts:270-275 | a time "HH:MM" of two-digit fields triggers at that hour and minute |
| NotificationsStore.MergeFacts | shared/notifications/stores/notificationsStore.ts:172-188 | merging a partial update is idempotent, an empty update changes nothing, and each field takes the update's value when given and keeps the old one otherwise |
| NotificationsStore.NotificationsStore.constructor | shared/notifications/stores/notificationsStore.ts:131-169 | the initial preferences and timing, undetermined permission, no used quotes, in-app and no error |
| NotificationsStore.NotificationsStore.ScheduleNotifications | shared/notifications/stores/notificationsStore.ts:226-304 | nothing is scheduled without granted permission; otherwise the requests for the current preferences and timing |
| NotificationsStore.NotificationsStore.UpdatePreferences | shared/notifications/stores/notificationsStore.ts:172-179 | the preferences become the merge of the old ones with the update; nothing else changes |
| NotificationsStore.NotificationsStore.UpdateTiming | shared/notifications/stores/notificationsStore.ts:181-188 | the timing becomes the merge of the old one with the update; nothing else changes |
| NotificationsStore.NotificationsStore.RequestPermissions | shared/notifications/stores/notificationsStore.ts:190-224 | the result is true exactly for a "granted" status; a status maps to granted, denied or undetermined and clears the error; a failure records denied with the error message or the default one |
| NotificationsStore.NotificationsStore.GetNextQuote | shared/notifications/stores/notificationsStore.ts:306-324 | with every quote used the backlog resets and the first message is returned; otherwise the returned quote is an unused catalogue message picked by the rotating index, which advances |
| NotificationsStore.NotificationsStore.MarkQuoteUsed | shared/notifications/stores/notificationsStore.ts:326-330 | the id is appended to the used list; nothing else changes |
| NotificationsStore.NotificationsStore.ResetQuoteBacklog | shared/notifications/stores/notificationsStore.ts:332-334 | the used list and the index are reset; nothing else changes |
| NotificationsStore.NotificationsStore.DeliverNotification | shared/notifications/stores/notificationsStore.ts:336-346 | delivering marks the quote used and changes nothing else |
| NotificationsStore.NotificationsStore.UpdateAppState | shared/notifications/stores/notificationsStore.ts:361-369 | in-app exactly when the state is "active"; nothing else changes |
| NotificationSettings.FormatThenParse | shared/stores/resources/useNotificationStore.ts:131-135 | reading back a formatted clock time gives the minute of the day |
| NotificationSettings.ParseThenFormat | shared/stores/resources/useNotificationStore.ts:109-135 | a readable "HH:MM" formats back to itself |
| NotificationSettings.AutomaticOffsets | shared/stores/resources/useNotificationStore.ts:109-128 | the midday time exists exactly when the wake time is readable, and the evening times exactly when the sleep time is |
| NotificationSettings.AutomaticTiming | shared/stores/resources/useNotificationStore.ts:104-143 | computed timing is automatic and its evening time equals the end of the evening window |
| NotificationSettings.FormatClockDaily | shared/stores/resources/useNotificationStore.ts:131-135 | the formatted clock time repeats every day |
| NotificationSettings.AutomaticTimingOffsets | shared/stores/resources/useNotificationStore.ts:112-141 | for readable times, midday is 3.5 hours after waking and the evening window runs from 3 to 2 hours before sleeping, wrapping around midnight |
| NotificationSettings.UnreadableTimes | shared/stores/resources/useNotificationStore.ts:108-158 | an unreadable wake time gives a "NaN:NaN" midday, an unreadable sleep time "NaN:NaN" evening times, since invalid dates do not throw; a readable wake time gives a readable midday |
| NotificationSettings.MergeTimingIdempotent | shared/stores/resources/useNotificationStore.ts:171-177 | merging a partial timing is idempotent and an empty update changes nothing |
| NotificationSettings.MergePreferencesKeys | shared/stores/resources/useNotificationStore.ts:222-230 | each switch takes the update's value when given and keeps the old one otherwise |
| NotificationSettings.Flip | shared/stores/resources/useNotificationStore.ts:232-270 | toggling negates one switch and keeps the others |
| NotificationSettings.SwitchesDetermine | shared/stores/resources/useNotificationStore.ts:20-29 | preferences are determined by their four switches |
| NotificationSettings.FlipTwice | shared/stores/resources/useNotificationStore.ts:232-270 | toggling twice restores the preferences, and toggles commute |
| NotificationSettings.ErrorAfterWrite | shared/stores/resources/useNotificationStore.ts:413-491 | a successful write keeps the error; a failed one records the storage message or the default; a thrown one records an error |
| NotificationSettings.NotificationSettingsStore.constructor | shared/stores/resources/useNotificationStore.ts:80-99 | initial timing, preferences and schedule status, not loading, no error |
| NotificationSettings.NotificationSettingsStore.SaveTimingToStorage | shared/stores/resources/useNotificationStore.ts:413-436 | only the error changes, as a failed or thrown write dictates |
| NotificationSettings.NotificationSettingsStore.SavePreferencesToStorage | shared/stores/resources/useNotificationStore.ts:438-464 | only the error changes, as a failed or thrown write dictates |
| NotificationSettings.NotificationSettingsStore.SaveScheduleStatusToStorage | shared/stores/resources/useNotificationStore.ts:466-491 | only the error changes, as a failed or thrown write dictates |
| NotificationSettings.NotificationSettingsStore.SaveToStorage | shared/stores/resources/useNotificationStore.ts:369-411 | only the error changes, as a failed or thrown write dictates |
| NotificationSettings.NotificationSettingsStore.LoadFromStorage | shared/stores/resources/useNotificationStore.ts:320-367 | loading ends; stored data replaces timing, preferences and status, and otherwise they stay and an error is recorded |
| NotificationSettings.NotificationSettingsStore.UpdateTiming | shared/stores/resources/useNotificationStore.ts:171-177 | timing becomes the merge with the update, then is saved |
| NotificationSettings.NotificationSettingsStore.SetMiddayTime | shared/stores/resources/useNotificationStore.ts:179-188 | sets the midday time and turns automatic timing off, then saves |
| NotificationSettings.NotificationSettingsStore.SetEveningTime | shared/stores/resources/useNotificationStore.ts:190-200 | sets the evening time and the window start and turns automatic timing off, then saves |
| NotificationSettings.NotificationSettingsStore.SetEveningWindow | shared/stores/resources/useNotificationStore.ts:202-212 | sets the window and turns automatic timing off, then saves |
| NotificationSettings.NotificationSettingsStore.SetAutomaticTiming | shared/stores/resources/useNotificationStore.ts:214-219 | sets only the automatic flag, then saves |
| NotificationSettings.NotificationSettingsStore.UpdatePreferences | shared/stores/resources/useNotificationStore.ts:222-230 | preferences become the merge with the update, then are saved |
| NotificationSettings.NotificationSettingsStore.Toggle | shared/stores/resources/useNotificationStore.ts:232-270 | negates the chosen switch, then saves |
| NotificationSettings.NotificationSettingsStore.UpdateScheduleStatus | shared/stores/resources/useNotificationStore.ts:273-281 | the status becomes the merge with the update, then is saved |
| NotificationSettings.NotificationSettingsStore.MarkAsScheduled | shared/stores/resources/useNotificationStore.ts:283-292 | scheduled now with the given pending count |
| NotificationSettings.NotificationSettingsStore.MarkAsUnscheduled | shared/stores/resources/useNotificationStore.ts:294-303 | not scheduled, no pending notifications, last-scheduled time kept |
| NotificationSettings.NotificationSettingsStore.GetTimingForDate | shared/stores/resources/useNotificationStore.ts:306-317 | automatic timing is computed from the wake and sleep times; manual timing is returned as stored |
| NotificationSettings.NotificationSettingsStore.Reset | shared/stores/resources/useNotificationStore.ts:493-500 | back to the initial state |
| InAppNotifications.InsertByTime | shared/notifications/providers/InAppNotificationProvider.ts:186-188 | inserting a notification into a listing adds exactly it, keeping everything else |
| InAppNotifications.InsertByTimeFacts | shared/notifications/providers/InAppNotificationProvider.ts:186-194 | insertion into a newest-first listing keeps it newest first, keeps ids distinct and adds exactly one id and one entry |
| InAppNotifications.IdsBound | shared/notifications/providers/InAppNotificationProvider.ts:20 | a listing has at most one id per entry, exactly one when ids are distinct |
| InAppNotifications.ListEntries | shared/notifications/providers/InAppNotificationProvider.ts:185-195 | the loop lists every stored (or every visible) notification once, newest first |
| InAppNotifications.Hide | shared/notifications/providers/InAppNotificationProvider.ts:212-223 | hiding makes the notification invisible (or deletes it when not persisting) and touches nothing else; with persistence no entry disappears |
| InAppNotifications.HideEach | shared/notifications/providers/InAppNotificationProvider.ts:272-274 | hiding a list of notifications removes exactly their ids from the visible ones |
| InAppNotifications.HideEachKeeps | shared/notifications/providers/InAppNotificationProvider.ts:272-274 | hiding a list changes only the visibility of listed entries |
| InAppNotifications.SliceStart | shared/notifications/providers/InAppNotificationProvider.ts:268-270 | `slice(start)` starts at the given index when it lies within the list, and never past the end |
| InAppNotifications.HideBeyond | shared/notifications/providers/InAppNotificationProvider.ts:268-274 | the loop hides exactly the listed notifications past the index |
| InAppNotifications.LimitKeepsPrefix | shared/notifications/providers/InAppNotificationProvider.ts:262-276 | after hiding beyond the limit, the visible notifications are exactly the first `max` of the newest-first listing |
| InAppNotifications.LimitHidesOldest | shared/notifications/providers/InAppNotificationProvider.ts:267-274 | every notification hidden by the limit is no newer than every one kept |
| InAppNotifications.LimitKeepsNewest | shared/notifications/providers/InAppNotificationProvider.ts:262-276 | the strictly newest visible notification survives a positive limit |
| InAppNotifications.NewestComesFirst | shared/notifications/providers/InAppNotificationProvider.ts:186-188 | the strictly newest notification heads the newest-first listing |
| InAppNotifications.HideEachOnlyHides | shared/notifications/providers/InAppNotificationProvider.ts:212-223 | hiding changes nothing but visibility, or removes entries when not persisting |
| InAppNotifications.HideBeyondWithinLimit | shared/notifications/providers/InAppNotificationProvider.ts:262-276 | hiding past a positive limit leaves exactly the newest `max` visible |
| InAppNotifications.LimitDisplay | shared/notifications/providers/InAppNotificationProvider.ts:262-276 | enforcing the limit only hides, does nothing for a zero limit, and leaves the newest notifications within the limit visible |
| InAppNotifications.UpdateEach | shared/notifications/providers/InAppNotificationProvider.ts:206-208 | the loop replaces every stored entry by its update and keeps the keys |
| InAppNotifications.MarkReadCount | shared/notifications/providers/InAppNotificationProvider.ts:237-241 | marking one notification read lowers the unread count by one exactly when it was unread |
| InAppNotifications.LatestIsShown | shared/notifications/providers/InAppNotificationProvider.ts:43-66 | a notification sent later than every stored one is visible, as sent, after the limit is enforced |
| InAppNotifications.UnreadBound | shared/notifications/providers/InAppNotificationProvider.ts:237-241 | the unread count never exceeds the number stored |
| InAppNotifications.InAppNotificationProvider.constructor | shared/notifications/providers/InAppNotificationProvider.ts:26-33 | no notifications; auto-hide 5000 ms, limit 3 and persistence unless given |
| InAppNotifications.InAppNotificationProvider.GetVisibleNotifications | shared/notifications/providers/InAppNotificationProvider.ts:185-189 | every visible notification once, newest first |
| InAppNotifications.InAppNotificationProvider.GetAllNotifications | shared/notifications/providers/InAppNotificationProvider.ts:191-195 | every stored notification once, newest first |
| InAppNotifications.InAppNotificationProvider.EnforceDisplayLimit | shared/notifications/providers/InAppNotificationProvider.ts:262-276 | only hides, nothing for a zero limit, and keeps the newest within the limit |
| InAppNotifications.InAppNotificationProvider.SendNotification | shared/notifications/providers/InAppNotificationProvider.ts:43-83 | the notification is stored unread and visible at the current time, replacing one with its id, and then the limit is enforced |
| InAppNotifications.InAppNotificationProvider.ScheduleNotification | shared/notifications/providers/InAppNotificationProvider.ts:85-118 | a notification due now or earlier is sent at once; a later one leaves the store unchanged for now |
| InAppNotifications.InAppNotificationProvider.CancelNotification | shared/notifications/providers/InAppNotificationProvider.ts:120-142 | the notification with the id is removed, if present |
| InAppNotifications.InAppNotificationProvider.ClearHistory | shared/notifications/providers/InAppNotificationProvider.ts:243-246 | everything is removed; the options are kept |
| InAppNotifications.InAppNotificationProvider.MarkAsRead | shared/notifications/providers/InAppNotificationProvider.ts:197-203 | a stored notification becomes read, nothing else changes, and the unread count drops by one if it was unread |
| InAppNotifications.InAppNotificationProvider.MarkAllAsRead | shared/notifications/providers/InAppNotificationProvider.ts:205-210 | every notification becomes read and nothing else about them changes |
| InAppNotifications.InAppNotificationProvider.HideNotification | shared/notifications/providers/InAppNotificationProvider.ts:212-223 | hides one notification, deleting it when not persisting |
| InAppNotifications.InAppNotificationProvider.HideAllNotifications | shared/notifications/providers/InAppNotificationProvider.ts:225-235 | nothing stays visible; with persistence every entry is kept, hidden, otherwise all are deleted |
| InAppNotifications.InAppNotificationProvider.GetUnreadCount | shared/notifications/providers/InAppNotificationProvider.ts:237-241 | the number of unread notifications, at most the number stored |
| ResourceLists.ResultOr | shared/stores/resources/useTimeslicesStore.ts:66-73 | the action returns the backend's data when the call succeeds and the action's default (null or the empty list) when it fails |
| ResourceLists.FindIndex | shared/stores/resources/useTimeslicesStore.ts:103-105 | the index is that of the first element with the id, and -1 exactly when no element has the id |
| ResourceLists.FindById | shared/stores/resources/useNotesStore.ts:107 | finds an element exactly when one has the id, and what it finds is a member with that id |
| ResourceLists.FindIndexIs | shared/stores/resources/useTimeslicesStore.ts:103-105 | an element whose id does not occur earlier is the one the search finds |
| ResourceLists.UpsertFacts | shared/stores/resources/useTimeslicesStore.ts:100-119 | after an upsert the item is in the list; when its id was present the first element with it is replaced and the rest is unchanged, otherwise it is appended; the ids already there keep their positions |
| ResourceLists.Upsert | shared/stores/resources/useTimeslicesStore.ts:100-119 | the item replaces the first element with its id, or is appended; UpsertFacts, UpsertIdempotent and UpsertKeepsUnique state its properties |
| ResourceLists.UpsertIdempotent | shared/stores/resources/useTimeslicesStore.ts:100-119 | upserting the same item twice gives the list of one upsert |
| ResourceLists.UpsertKeepsUnique | shared/stores/resources/useTimeslicesStore.ts:100-119 | an upsert keeps the ids of a list unique |
| ResourceLists.UpsertAllFacts | shared/stores/resources/useTimeslicesStore.ts:132-151 | a batch upsert keeps every existing id in place, grows the list by at most the batch size, leaves every batch id present and keeps the ids unique |
| ResourceLists.UpsertAll | shared/stores/resources/useTimeslicesStore.ts:132-151 | each returned item upserted in turn; UpsertAllFacts and UpsertEach state its properties |
| ResourceLists.UpsertEach | shared/stores/resources/useTimeslicesStore.ts:135-150 | the loop over a working copy computes the batch upsert, one upsert per returned item in order |
| ResourceLists.ReplaceNeverAdds | shared/stores/resources/useTimeslicesStore.ts:161-168 | an update replaces every element with the item's id by the item, keeps the others and the length, and leaves a list without the id unchanged |
| ResourceLists.ReplaceIsUpsertOfExisting | shared/stores/resources/useTimeslicesStore.ts:161-168 | with unique ids, an update of a present id is the same as an upsert, and an update of an absent id changes nothing |
| ResourceLists.ReplaceIdempotent | shared/stores/resources/useTimeslicesStore.ts:161-168 | applying the same update twice gives the list of one update |
| ResourceLists.BatchReplaceFacts | shared/stores/resources/useNotesStore.ts:103-110 | a batch update keeps the length and every id in place, takes a cached element with a returned id from the batch and keeps the others; an empty batch changes nothing and a one-item batch is a single update |
| ResourceLists.WithoutIdFacts | shared/stores/resources/useTimeslicesStore.ts:177-179 | after a delete no element has the id, every other element stays, and a list without the id is unchanged |
| ResourceLists.WithoutIdsFacts | shared/stores/resources/useTimeslicesStore.ts:187-191 | after a batch delete an element stays exactly when its id is not listed and it passes the store's guard: states keep a missing id, activities drop a null id, timeslices and notes drop an empty one; no listed id is left |
| ResourceLists.DeleteOneOfMany | shared/stores/resources/useStatesStore.ts:164-185 | a batch delete of a single id that keeps elements without an id is the single delete |
| TimeslicesResource.TimeslicesStore.constructor | shared/stores/resources/useTimeslicesStore.ts:55-58 | no timeslices, not loading, no error |
| TimeslicesResource.TimeslicesStore.InsertTimeslice | shared/stores/resources/useTimeslicesStore.ts:61-74 | the created timeslice is appended and returned; a null result adds nothing; loading ends, the error is cleared on success and holds the failure message otherwise, and a failed call leaves the list as it was |
| TimeslicesResource.TimeslicesStore.InsertTimeslices | shared/stores/resources/useTimeslicesStore.ts:76-89 | the created timeslices are appended in order and returned; loading ends, the error is cleared on success and holds the failure message otherwise, and a failed call leaves the list as it was |
| TimeslicesResource.TimeslicesStore.UpsertTimeslice | shared/stores/resources/useTimeslicesStore.ts:91-121 | the result replaces the first timeslice with its id, or is appended when none has it; loading ends, the error is cleared on success and holds the failure message otherwise, and a failed call leaves the list as it was |
| TimeslicesResource.TimeslicesStore.UpsertTimeslices | shared/stores/resources/useTimeslicesStore.ts:123-153 | the results are upserted one after the other into a working copy; loading ends, the error is cleared on success and holds the failure message otherwise, and a failed call leaves the list as it was |
| TimeslicesResource.TimeslicesStore.UpdateTimeslice | shared/stores/resources/useTimeslicesStore.ts:155-170 | every timeslice with the result's id is replaced and nothing is added; loading ends, the error is cleared on success and holds the failure message otherwise, and a failed call leaves the list as it was |
| TimeslicesResource.TimeslicesStore.DeleteTimeslice | shared/stores/resources/useTimeslicesStore.ts:172-181 | after a confirmed delete every timeslice with the id is gone; loading ends with the error cleared on success and set on failure, and a failed call keeps the list |
| TimeslicesResource.TimeslicesStore.DeleteTimeslices | shared/stores/resources/useTimeslicesStore.ts:183-194 | after a confirmed delete the listed ids are gone, and so is every timeslice with a missing or empty id; loading ends with the error cleared on success and set on failure, and a failed call keeps the list |
| TimeslicesResource.TimeslicesStore.Refresh | shared/stores/resources/useTimeslicesStore.ts:196-209 | the fetched timeslices are appended to the cached ones, duplicates included; loading ends, the error is cleared on success and holds the failure message otherwise, and a failed call leaves the list as it was |
| TimeslicesResource.TimeslicesStore.GetTimeslice | shared/stores/resources/useTimeslicesStore.ts:212-219 | returns the fetched timeslice or null and leaves the list untouched |
| TimeslicesResource.TimeslicesStore.GetTimeslices | shared/stores/resources/useTimeslicesStore.ts:221-246 | returns the fetched list or the empty one and leaves the list untouched |
| TimeslicesResource.TimeslicesStore.SetLoading | shared/stores/resources/useTimeslicesStore.ts:249 | sets only the loading flag |
| TimeslicesResource.TimeslicesStore.SetError | shared/stores/resources/useTimeslicesStore.ts:250 | sets only the error |
| TimeslicesResource.TimeslicesStore.Reset | shared/stores/resources/useTimeslicesStore.ts:251 | no timeslices, not loading, no error |
| StatesResource.StatesStore.constructor | shared/stores/resources/useStatesStore.ts:49-52 | no states, not loading, no error |
| StatesResource.StatesStore.InsertState | shared/stores/resources/useStatesStore.ts:55-69 | the created state is appended and returned; a null result adds nothing; loading ends, the error is cleared on success and holds the failure message otherwise, and a failed call leaves the list as it was |
| StatesResource.StatesStore.InsertStates | shared/stores/resources/useStatesStore.ts:70-84 | the created states are appended in order and returned; loading ends, the error is cleared on success and holds the failure message otherwise, and a failed call leaves the list as it was |
| StatesResource.StatesStore.UpsertState | shared/stores/resources/useStatesStore.ts:85-115 | the result replaces the first state with its id, or is appended when none has it; loading ends, the error is cleared on success and holds the failure message otherwise, and a failed call leaves the list as it was |
| StatesResource.StatesStore.UpsertStates | shared/stores/resources/useStatesStore.ts:116-146 | the results are upserted one after the other into a working copy; loading ends, the error is cleared on success and holds the failure message otherwise, and a failed call leaves the list as it was |
| StatesResource.StatesStore.UpdateState | shared/stores/resources/useStatesStore.ts:147-163 | every state with the result's id is replaced and nothing is added; loading ends, the error is cleared on success and holds the failure message otherwise, and a failed call leaves the list as it was |
| StatesResource.StatesStore.DeleteState | shared/stores/resources/useStatesStore.ts:164-174 | after a confirmed delete every state with the id is gone; loading ends with the error cleared on success and set on failure, and a failed call keeps the list |
| StatesResource.StatesStore.DeleteStates | shared/stores/resources/useStatesStore.ts:175-185 | after a confirmed delete the listed ids are gone while states with a missing id stay; loading ends with the error cleared on success and set on failure, and a failed call keeps the list |
| StatesResource.StatesStore.Refresh | shared/stores/resources/useStatesStore.ts:186-201 | the fetched states are appended to the cached ones, duplicates included; loading ends, the error is cleared on success and holds the failure message otherwise, and a failed call leaves the list as it was |
| StatesResource.StatesStore.GetState | shared/stores/resources/useStatesStore.ts:202-210 | returns the fetched state or null and leaves the list untouched |
| StatesResource.StatesStore.GetStates | shared/stores/resources/useStatesStore.ts:211-237 | returns the fetched list or the empty one and leaves the list untouched |
| StatesResource.StatesStore.SetLoading | shared/stores/resources/useStatesStore.ts:239 | sets only the loading flag |
| StatesResource.StatesStore.SetError | shared/stores/resources/useStatesStore.ts:240 | sets only the error |
| StatesResource.StatesStore.Reset | shared/stores/resources/useStatesStore.ts:241 | no states, not loading, no error |
| NotesResource.NotesStore.constructor | shared/stores/resources/useNotesStore.ts:44-47 | no notes, not loading, no error |
| NotesResource.NotesStore.InsertNote | shared/stores/resources/useNotesStore.ts:50-64 | the created note is appended and returned; a null result adds nothing; loading ends, the error is cleared on success and holds the failure message otherwise, and a failed call leaves the list as it was |
| NotesResource.NotesStore.InsertNotes | shared/stores/resources/useNotesStore.ts:65-79 | the created notes are appended in order and returned; loading ends, the error is cleared on success and holds the failure message otherwise, and a failed call leaves the list as it was |
| NotesResource.NotesStore.UpdateNote | shared/stores/resources/useNotesStore.ts:80-96 | every note with the result's id is replaced and nothing is added; loading ends, the error is cleared on success and holds the failure message otherwise, and a failed call leaves the list as it was |
| NotesResource.NotesStore.UpdateNotes | shared/stores/resources/useNotesStore.ts:97-114 | each cached note is replaced by the first returned note with its id and the others stay; loading ends, the error is cleared on success and holds the failure message otherwise, and a failed call leaves the list as it was |
| NotesResource.NotesStore.DeleteNote | shared/stores/resources/useNotesStore.ts:115-125 | after a confirmed delete every note with the id is gone; loading ends with the error cleared on success and set on failure, and a failed call keeps the list |
| NotesResource.NotesStore.DeleteNotes | shared/stores/resources/useNotesStore.ts:126-136 | after a confirmed delete the listed ids are gone, and so is every note with a missing or empty id; loading ends with the error cleared on success and set on failure, and a failed call keeps the list |
| NotesResource.NotesStore.Refresh | shared/stores/resources/useNotesStore.ts:137-152 | the fetched notes are appended to the cached ones, duplicates included; loading ends, the error is cleared on success and holds the failure message otherwise, and a failed call leaves the list as it was |
| NotesResource.NotesStore.GetNote | shared/stores/resources/useNotesStore.ts:153-161 | returns the fetched note or null and leaves the list untouched |
| NotesResource.NotesStore.GetNotes | shared/stores/resources/useNotesStore.ts:162-175 | returns the notes found, at most one per id, dropping the ids not found; the list is untouched |
| NotesResource.NotesStore.GetUserNotes | shared/stores/resources/useNotesStore.ts:176-194 | returns the fetched list or the empty one and leaves the list untouched |
| NotesResource.NotesStore.SetLoading | shared/stores/resources/useNotesStore.ts:195 | sets only the loading flag |
| NotesResource.NotesStore.SetError | shared/stores/resources/useNotesStore.ts:196 | sets only the error |
| NotesResource.NotesStore.Reset | shared/stores/resources/useNotesStore.ts:197 | no notes, not loading, no error |
| ActivitiesResource.ActivitiesStore.constructor | shared/stores/resources/useActivitiesStore.ts:67-70 | no activities, not loading, no error |
| ActivitiesResource.ActivitiesStore.InsertActivity | shared/stores/resources/useActivitiesStore.ts:73-87 | the created activity is appended and returned; a null result adds nothing; loading ends, the error is cleared on success and holds the failure message otherwise, and a failed call leaves the list as it was |
| ActivitiesResource.ActivitiesStore.InsertActivities | shared/stores/resources/useActivitiesStore.ts:88-102 | the created activities are appended in order and returned; loading ends, the error is cleared on success and holds the failure message otherwise, and a failed call leaves the list as it was |
| ActivitiesResource.ActivitiesStore.UpsertActivity | shared/stores/resources/useActivitiesStore.ts:191-218 | the result replaces the first activity with its id, or is appended when none has it; loading ends, the error is cleared on success and holds the failure message otherwise, and a failed call leaves the list as it was |
| ActivitiesResource.ActivitiesStore.UpsertActivities | shared/stores/resources/useActivitiesStore.ts:219-249 | the results are upserted one after the other into a working copy; loading ends, the error is cleared on success and holds the failure message otherwise, and a failed call leaves the list as it was |
| ActivitiesResource.ActivitiesStore.UpdateActivity | shared/stores/resources/useActivitiesStore.ts:103-119 | every activity with the result's id is replaced and nothing is added; loading ends, the error is cleared on success and holds the failure message otherwise, and a failed call leaves the list as it was |
| ActivitiesResource.ActivitiesStore.UpdateActivities | shared/stores/resources/useActivitiesStore.ts:120-137 | each cached activity is replaced by the first returned activity with its id and the others stay; loading ends, the error is cleared on success and holds the failure message otherwise, and a failed call leaves the list as it was |
| ActivitiesResource.ActivitiesStore.SoftDeleteActivity | shared/stores/resources/useActivitiesStore.ts:166-176 | after a confirmed delete every activity with the id leaves the list; loading ends with the error cleared on success and set on failure, and a failed call keeps it |
| ActivitiesResource.ActivitiesStore.SoftDeleteActivities | shared/stores/resources/useActivitiesStore.ts:177-190 | after a confirmed delete the listed ids and every activity with a null id leave the list; loading ends with the error cleared on success and set on failure, and a failed call keeps it |
| ActivitiesResource.ActivitiesStore.DisableActivity | shared/stores/resources/useActivitiesStore.ts:138-150 | after a confirmed call the activities with the id stay in place with the DISABLED status; loading ends with the error cleared on success and set on failure, and a failed call keeps the list |
| ActivitiesResource.DisableListed | shared/stores/resources/useActivitiesStore.ts:151-165 | the list keeps its length; DisableListedFacts states that every activity keeps its place and only the listed ones change, to the DISABLED status |
| ActivitiesResource.ActivitiesStore.DisableActivities | shared/stores/resources/useActivitiesStore.ts:151-165 | after a confirmed call every listed activity stays in place with the DISABLED status; loading ends with the error cleared on success and set on failure, and a failed call keeps the list |
| ActivitiesResource.ActivitiesStore.Refresh | shared/stores/resources/useActivitiesStore.ts:250-268 | the list becomes the fetched enabled activities sorted by the stored order; loading ends, the error is cleared on success and holds the failure message otherwise, and a failed call leaves the list as it was |
| ActivitiesResource.ActivitiesStore.UpdateActivityOrder | shared/stores/resources/useActivitiesStore.ts:333-347 | the list becomes the reordered one whether or not saving the order succeeds |
| ActivitiesResource.ActivitiesStore.GetActivity | shared/stores/resources/useActivitiesStore.ts:269-277 | returns the fetched activity or null and leaves the list untouched |
| ActivitiesResource.ActivitiesStore.GetActivities | shared/stores/resources/useActivitiesStore.ts:278-331 | returns the fetched list or the empty one and leaves the list untouched |
| ActivitiesResource.ActivitiesStore.SetLoading | shared/stores/resources/useActivitiesStore.ts:348 | sets only the loading flag |
| ActivitiesResource.ActivitiesStore.SetError | shared/stores/resources/useActivitiesStore.ts:349 | sets only the error |
| ActivitiesResource.ActivitiesStore.Reset | shared/stores/resources/useActivitiesStore.ts:350 | no activities, not loading, no error |
| Tallies.Add | features/insights/services/insightsService.ts:35-37 | adding to a key keeps every existing key at its place and grows the tally by at most the one new key |
| Tallies.AddKeys | features/insights/services/insightsService.ts:35-37 | after adding, the keys are the old keys plus the key; a new key is appended at the end, an existing one keeps the length |
| Tallies.AddTotals | features/insights/services/insightsService.ts:35-37 | adding raises the key's total by the amount and leaves every other key's total unchanged |
| Tallies.AddKeepsDistinct | features/insights/services/insightsService.ts:35-37 | adding keeps every key in the tally at most once |
| Tallies.FirstSeen | features/insights/services/insightsService.ts:27-38 | the position of the first element that contributes to a key, with no earlier element contributing to it |
| Tallies.SeenFront | features/insights/services/insightsService.ts:27-38 | a key is seen in a list exactly when it is seen before the last element or the last element contributes to it |
| Tallies.TallyFacts | features/insights/services/insightsService.ts:27-38 | the tally holds each key once, exactly the keys some element contributes to, each with the sum of its contributions, in order of first appearance (JavaScript Map insertion order) |
| Tallies.TallyKeys | features/insights/services/insightsService.ts:27-38 | the keys are distinct and are exactly the keys some element contributes to |
| Tallies.TallyTotals | features/insights/services/insightsService.ts:27-38 | every key's total is the sum of the contributions to it |
| Tallies.TallyOrder | features/insights/services/insightsService.ts:27-38 | keys appear in the order of their first contribution |
| Tallies.FirstSeenLast | features/insights/services/insightsService.ts:27-38 | a key first contributed by the last element is first seen there |
| Tallies.TallyEach | features/insights/services/insightsService.ts:27-38 | the forEach loop over the elements builds exactly the tally |
| Tallies.EntryTotal | features/insights/services/insightsService.ts:27-38 | with distinct keys, an entry's total is the total looked up for its key |
| Tallies.SeenSumPositive | features/insights/services/insightsService.ts:280-289 | with positive contributions, a key that was seen has a positive total |
| Tallies.SumNonNegative | features/insights/services/insightsService.ts:280-289 | with positive contributions, every total is non-negative |
| Tallies.ExtremesUnique | features/insights/services/insightsService.ts:47-59 | the first maximum above the floor and the first minimum are unique, and the minimum is never above the maximum |
| Tallies.FirstMaxIndex | features/insights/services/insightsService.ts:47-59 | the scan for the first strictly greater total finds the first maximum above the floor, or none |
| Tallies.MostAndLeast | features/insights/services/insightsService.ts:47-59 | the single pass finds both the first maximum above the floor and the first minimum |
| Insights.RoundMinutes | features/insights/services/insightsService.ts:34 | a duration in milliseconds is rounded to the nearest whole minute, halves rounding up as Math.round does |
| Insights.CreateActivityInsight | features/insights/services/insightsService.ts:61-75 | an insight exists exactly when the id is non-empty and names a known activity; it carries that id and the rounded minutes |
| Insights.CalculateActivityInsights | features/insights/services/insightsService.ts:20-81 | most time is the first activity with the largest total above -1 minute and least time the first with the smallest total, both null when no timeslice has an activity and valid start and end |
| Insights.NoTimedTimeslicesNoTally | features/insights/services/insightsService.ts:27-42 | the totals are empty exactly when no timeslice has an activity id and two parseable times |
| Insights.MostAtLeastLeast | features/insights/services/insightsService.ts:47-59 | the most-time total is never below the least-time total |
| Insights.TotalsAreSums | features/insights/services/insightsService.ts:27-38 | each activity's total is the sum of the durations of its timeslices |
| Insights.ActivityTotals | features/insights/services/insightsService.ts:27-38 | the minutes per activity of the timeslices with an activity and two parseable times; TotalsAreSums and NoTimedTimeslicesNoTally state it |
| Insights.NegativeTimeHasNoMost | features/insights/services/insightsService.ts:47-59 | a single timeslice whose duration is at or below -1 minute gives a least-time activity but no most-time activity |
| Insights.FindState | features/insights/services/insightsService.ts:150 | finds a state with the id, or reports that none has it |
| Insights.CalculateMoodInsights | features/insights/services/insightsService.ts:140-180 | the mood value is the first mood with the highest count among timeslices whose state has a mood, or null when there is none |
| Insights.MoodReported | features/insights/services/insightsService.ts:158-163 | a mood is reported exactly when some timeslice's state has a mood |
| Insights.MoodSeenCounts | features/insights/services/insightsService.ts:147-157 | a timeslice with a mood makes some mood's count positive |
| Insights.CalculateMostFrequentActivity | features/insights/services/insightsService.ts:274-321 | the insight is for the first activity with the most timeslices, with its summed duration, and null when no timeslice has an activity or the activity is unknown |
| Insights.FrequentTimeMatchesTally | features/insights/services/insightsService.ts:304-313 | the duration summed for the most frequent activity equals that activity's total in the time tally |
| Insights.CalculateNoteInsights | features/insights/services/insightsService.ts:86-134 | counts the notes with an id referenced by some timeslice, and the whitespace-separated words of their messages |
| Insights.NothingRelevant | features/insights/services/insightsService.ts:106-111 | when no timeslice references a note, nothing is counted |
| Insights.NoteStatsFacts | features/insights/services/insightsService.ts:113-128 | a note is counted exactly when its id is non-empty and some timeslice lists it; a note's words are the runs of non-whitespace in its trimmed message |
| Streaks.CeilDiv | features/insights/services/insightsService.ts:197-199 | rounding a division up: the result is the least multiple count that covers the dividend |
| Streaks.DaysInRange | features/insights/services/insightsService.ts:197-200 | the range has at least one day, and one more day than the span rounded up to whole days |
| Streaks.ActiveDays | features/insights/services/insightsService.ts:226-253 | there is one flag per day of the range |
| Streaks.LastNonFuture | features/insights/services/insightsService.ts:234-238 | the last day not in the future is a day of the range, or -1 when every day is in the future |
| Streaks.RunAtEnd | features/insights/services/insightsService.ts:255-262 | the run at the end never exceeds the length |
| Streaks.CollectActiveDays | features/insights/services/insightsService.ts:205-217 | the loop collects exactly the days of timeslices that have an activity and a start that is not after today |
| Streaks.StreakBackFrom | features/insights/services/insightsService.ts:255-262 | counting back from the last non-future day gives the run of active days ending there |
| Streaks.CalculateStreakData | features/insights/services/insightsService.ts:187-269 | the flags mark the non-future days of the range with a timeslice; the longest streak is the longest run of flags, the current streak the run ending at the last non-future day, and the start date is kept |
| Streaks.ActiveSetPush | features/insights/services/insightsService.ts:205-217 | one more timeslice adds its day to the set exactly when it is counted |
| Streaks.ActiveSet | features/insights/services/insightsService.ts:205-217 | the days of the timeslices that have an activity and a start not after today; ActiveSetPush and CollectActiveDays state it |
| Streaks.ScanStep | features/insights/services/insightsService.ts:226-253 | one loop step keeps the scan's invariant: a future day pushes false and changes nothing else, a past day pushes its flag and updates the streak counters |
| Streaks.ActiveDaysPush | features/insights/services/insightsService.ts:226-253 | the flags for one more day are the old flags plus that day's flag |
| Streaks.LastNonFutureStep | features/insights/services/insightsService.ts:234-238 | a future day leaves the last non-future index alone, a past day moves it to that day |
| Streaks.PushPast | features/insights/services/insightsService.ts:238-251 | an active day lengthens the current run by one and a blank day resets it; the longest run grows only to a longer current run |
| Streaks.PushFalse | features/insights/services/insightsService.ts:234-236 | a future day leaves the longest run unchanged |
| Streaks.PushCell | features/insights/services/insightsService.ts:243-250 | the temporary streak and the longest streak after one more flag |
| Streaks.RunAtEndIsBlock | features/insights/services/insightsService.ts:255-262 | the final run is all active and is preceded by an inactive day or the start |
| Streaks.SuffixBlockWithinRun | features/insights/services/insightsService.ts:255-262 | any all-active suffix is no longer than the final run |
| Streaks.LongestRunIsLongest | features/insights/services/insightsService.ts:243-250 | every all-active stretch is at most the longest streak, and one stretch reaches it |
| Streaks.CountTruePrefix | features/insights/services/insightsService.ts:226-262 | a prefix never has more active days than the whole range |
| Streaks.BlockCounts | features/insights/services/insightsService.ts:226-262 | an all-active stretch is no longer than the number of active days |
| Streaks.RunsBounded | features/insights/services/insightsService.ts:243-262 | the current streak is at most the longest, which is at most the number of active days |
| Streaks.StreakBounds | features/insights/services/insightsService.ts:187-269 | for every input the range is non-empty, current streak <= longest streak <= active days, and no future day is active |
| ReflectionGrid.TimeKey | features/reflection/utils/index.ts:106-111 | a slot key is five characters with a colon in the middle |
| ReflectionGrid.TimeKeys | features/reflection/utils/index.ts:104-113 | there are 48 half-hour slot keys |
| ReflectionGrid.TimeKeyParts | features/reflection/utils/index.ts:106-111 | a slot key is the zero-padded hour, a colon and the zero-padded minute |
| ReflectionGrid.TimeKeyInjective | features/reflection/utils/index.ts:106-111 | different hours or minutes give different slot keys |
| ReflectionGrid.TimeKeysDistinct | features/reflection/utils/index.ts:104-113 | the 48 slot keys are all different, and none is the key an invalid date produces |
| ReflectionGrid.SlotKeyAt | features/reflection/utils/index.ts:104-113 | the slot for an hour and half hour sits at position hour*2+half, and its key is that time |
| ReflectionGrid.SlotOfClock | features/reflection/utils/index.ts:128-133 | any clock time of the day, with its minutes floored to the half hour, lands on one of the slot keys |
| ReflectionGrid.GenerateTimeKeys | features/reflection/utils/index.ts:104-113 | the nested hour and minute loops produce exactly the slot keys, in order |
| ReflectionGrid.RowPush | features/reflection/utils/index.ts:124-138 | placing one more timeslice sets its cell in its date's row when that cell exists and changes nothing otherwise |
| ReflectionGrid.FillPush | features/reflection/utils/index.ts:124-138 | placing one more timeslice sets its cell in the grid when the date and slot exist, and leaves the grid unchanged otherwise |
| ReflectionGrid.FillAddRow | features/reflection/utils/index.ts:116-121 | one more date adds a row of empty slots |
| ReflectionGrid.TimeslicesParser | features/reflection/utils/index.ts:74-141 | the parser returns the grid of the timeslices with a start time, bucketed by local date and half-hour slot |
| ReflectionGrid.NullRows | features/reflection/utils/index.ts:116-121 | the loop over the dates builds a row of empty slots for each date |
| ReflectionGrid.PlaceAll | features/reflection/utils/index.ts:124-138 | the loop over the timeslices with a start places each into its cell, the later one winning |
| ReflectionGrid.NullRow | features/reflection/utils/index.ts:118-120 | the loop over the slot keys builds a row with every slot empty |
| ReflectionGrid.EmptyIffNoStart | features/reflection/utils/index.ts:84-89 | the grid is empty exactly when no timeslice has a start time |
| ReflectionGrid.GridShape | features/reflection/utils/index.ts:94-121 | the rows are exactly the local dates of the timeslices with a start, and every row has the 48 distinct slot keys |
| ReflectionGrid.LastInIsLast | features/reflection/utils/index.ts:124-138 | a cell holds nothing exactly when no timeslice falls into it, otherwise the last timeslice that falls into it |
| ReflectionGrid.EveryParsedStartHasACell | features/reflection/utils/index.ts:124-138 | a timeslice whose start parses gets a row and a slot, and its cell is filled |
| ReflectionGrid.UnparsedStartHasNoCell | features/reflection/utils/index.ts:94-138 | a start that does not parse creates the "Invalid Date" row, and none of that row's cells ever holds the timeslice |
| ReflectionState.Toggle | features/reflection/stores/useReflectionStore.ts:182-196 | after a toggle the value is selected exactly when it was not before, and every other value keeps its selection |
| ReflectionState.ToggleTwiceRestores | features/reflection/stores/useReflectionStore.ts:182-196 | toggling a value on and off again restores the selection |
| ReflectionState.ToggleRemovesKeepsOrder | features/reflection/stores/useReflectionStore.ts:182-196 | toggling a selected value removes every copy of it, keeps the others in order, and shortens the selection |
| ReflectionState.ReflectionStore.constructor | features/reflection/stores/useReflectionStore.ts:58-71 | an empty reflection, no selection, not loading and no error |
| ReflectionState.ReflectionStore.LoadReflectionData | features/reflection/stores/useReflectionStore.ts:73-116 | a successful load stores the timeslices, their parsed grid and the dates and clears the error; a failed load keeps the previous reflection and records the error's message; loading always ends |
| ReflectionState.ReflectionStore.RefreshReflectionData | features/reflection/stores/useReflectionStore.ts:168-176 | without both dates nothing changes; with them it is a load of the stored dates: success stores the fetched timeslices and their grid and clears the error, failure keeps the timeslices, the grid and both dates and sets the error; the selections are kept |
| ReflectionState.ReflectionStore.SetSelectedColumns | features/reflection/stores/useReflectionStore.ts:179 | replaces the selected columns |
| ReflectionState.ReflectionStore.SetSelectedRows | features/reflection/stores/useReflectionStore.ts:180 | replaces the selected rows |
| ReflectionState.ReflectionStore.ToggleColumn | features/reflection/stores/useReflectionStore.ts:182-188 | toggles the date in the selected columns |
| ReflectionState.ReflectionStore.ToggleRow | features/reflection/stores/useReflectionStore.ts:190-196 | toggles the time in the selected rows |
| ReflectionState.ReflectionStore.ResetSelectedColumns | features/reflection/stores/useReflectionStore.ts:198-200 | the selected columns become just the date |
| ReflectionState.ReflectionStore.ResetSelectedRows | features/reflection/stores/useReflectionStore.ts:202-204 | the selected rows become just the time |
| ReflectionState.ReflectionStore.SetSelectedTimesliceInfo | features/reflection/stores/useReflectionStore.ts:206-208 | replaces the selected timeslice information |
| ReflectionState.ReflectionStore.Reset | features/reflection/stores/useReflectionStore.ts:210-224 | back to the initial state |
| Common.Dedup | scripts/extract-locale-keys.js:59-61 | uniq keeps every element, each once, and never lengthens the list |
| Common.DedupFromAppend | scripts/extract-locale-keys.js:59-61 | de-duplicating a concatenation de-duplicates the front, then the back minus what the front already had (first occurrences win) |
| Common.DedupDistinct | scripts/extract-locale-keys.js:59-61 | a list without duplicates is unchanged by uniq |
| LocaleSource.BodyBetweenIsQuotedBody | scripts/extract-locale-keys.js:6-7 | the positional test for a literal body agrees with the body rule of the pattern: escapes or characters other than the quote and the backslash |
| LocaleSource.SkipSpaceSkipsSpace | scripts/extract-locale-keys.js:7 | skipping whitespace stops at the first character that is not whitespace, or at the end |
| LocaleSource.BodyEndIsBody | scripts/extract-locale-keys.js:7 | the scan of a literal body stops at the closing quote or at the end, with a valid body before it |
| LocaleSource.MatchAt | scripts/extract-locale-keys.js:6-7 | a match found at a position starts there and ends within the source |
| LocaleSource.MatchAtPositions | scripts/extract-locale-keys.js:6-7 | a match is a t at a word boundary, optional spaces, an opening parenthesis, spaces, a quoted literal, spaces and a closing parenthesis, and yields the literal's body |
| LocaleSource.MatchAtIffMatches | scripts/extract-locale-keys.js:6-7 | the scanner finds a match with a given key and end exactly when the pattern's declarative description holds there |
| LocaleSource.NextMatch | scripts/extract-locale-keys.js:52 | the next match starts at or after the search position |
| LocaleSource.NextMatchIsLeftmost | scripts/extract-locale-keys.js:52 | the next match is the leftmost: no position between the search start and it matches |
| LocaleSource.ExtractKeysFromSource | scripts/extract-locale-keys.js:49-57 | the exec loop collects the keys of the successive matches, dropping empty literals |
| LocaleSource.ScannedKeysAreCallLiterals | scripts/extract-locale-keys.js:49-57 | every collected key is non-empty and is the literal of some t call in the source |
| LocaleSource.SingleCallYieldsItsKey | scripts/extract-locale-keys.js:49-57 | a source made of one t call with a non-empty literal in any of the three quotes yields exactly that literal |
| LocaleSource.UniqSnoc | scripts/extract-locale-keys.js:59-61 | one more key is added to the de-duplicated keys exactly when it was not there before |
| LocaleTree.ExtractKeysFromObject | scripts/extract-locale-keys.js:9-22 | the loop over an object's entries returns the dotted paths of its leaves, recursing into nested objects |
| LocaleTree.ExtractKeys | scripts/extract-locale-keys.js:9-22 | the dotted path of every leaf, recursing into nested objects; ExtractIsDottedPaths states which paths |
| LocaleTree.NextDotted | scripts/extract-locale-keys.js:13 | joining a prefix and a key with a dot gives the dotted form of the longer path |
| LocaleTree.ExtractIsDottedPaths | scripts/extract-locale-keys.js:9-22 | the keys of an object without empty keys are exactly the dotted paths of its leaves, with arrays and other non-objects counted as leaves |
| LocaleTree.FindKey | scripts/extract-locale-keys.js:71 | finds the first member with the key, or -1 when none has it |
| LocaleTree.BuildTree | scripts/extract-locale-keys.js:63-84 | the loops over the keys and their dotted parts build the tree that inserts every non-empty key in turn, treating inherited property names as already present |
| LocaleTree.InsertAddsPath | scripts/extract-locale-keys.js:69-81 | inserting a key's parts into a tree where it fits adds exactly that path |
| LocaleTree.InsertExisting | scripts/extract-locale-keys.js:69-81 | inserting a path already in the tree changes nothing |
| LocaleTree.InsertAddsAtMostPath | scripts/extract-locale-keys.js:69-81 | inserting a key adds no leaf path other than that key's |
| LocaleTree.InsertCovers | scripts/extract-locale-keys.js:69-81 | after inserting a key its path or a longer one is in the tree, and every path that was there is still there or extended |
| LocaleTree.TreeFacts | scripts/extract-locale-keys.js:63-84 | when no key is a dotted prefix of another, the tree is well formed and its leaf paths are exactly the split non-empty keys |
| LocaleTree.TreeShape | scripts/extract-locale-keys.js:63-84 | for any keys the tree is well formed, its leaves are paths of keys, and every non-empty key ends in a leaf or leads to deeper ones |
| LocaleTree.CorrectedRoundTrip | scripts/extract-locale-keys.js:9-84 | for keys none of which is a dotted prefix of another or starts with a dot, flattening the built tree gives back exactly the non-empty keys |
| LocaleTree.ExtractedAreLeafKeys | scripts/extract-locale-keys.js:9-84 | every key flattened from a built tree is one of the input keys and a leaf of the tree |
| LocaleTree.LeafAboveAnotherLost | scripts/extract-locale-keys.js:71-79 | a key that is a dotted prefix of another key is turned into an object and does not come back as a key |
| LocaleTree.PrototypeNamedKeyLost | scripts/extract-locale-keys.js:71 | as written, the key "constructor" produces an empty tree, because the in test sees the inherited property |
| LocaleTree.AsWrittenAgreesWithoutPrototypeNames | scripts/extract-locale-keys.js:63-84 | when no key part is an inherited property name, the tree as written equals the corrected tree |
| LocaleTree.InsertIgnoresUnusedNames | scripts/extract-locale-keys.js:71 | names treated as present matter only when a key part uses them |
| LocaleTree.CorrectedKeepsConstructor | scripts/extract-locale-keys.js:63-84 | the corrected tree keeps the key "constructor" as a leaf, and flattening gives it back |
| LocaleTree.SortStrings | scripts/extract-locale-keys.js:90 | sorting keys gives an ordered permutation of them |
| LocaleTree.SortedMembers | scripts/extract-locale-keys.js:89-92 | the rebuilt object gets one member per given key, added in the order of the keys, each holding the sorted value of that key |
| LocaleTree.SortTreeOrdered | scripts/extract-locale-keys.js:87-94 | after sortTree every object at every level has had its keys added in ascending string order |
| LocaleTree.PropertyOrder | scripts/extract-locale-keys.js:90-91 | an object lists the keys it was given, each once: the array-index keys first, by numeric value, then the other keys in the order they were added |
| LocaleTree.PropertyOrderOfSorted | scripts/extract-locale-keys.js:90-91 | an object whose keys were added in string order lists the array indices first by value, then the other keys in string order |
| LocaleTree.SortTreeListed | scripts/extract-locale-keys.js:87-94 | every object of the sorted tree, at every level, lists array-index keys first by numeric value and the other keys after them in string order |
| LocaleTree.IndexKeysByValue | scripts/extract-locale-keys.js:87-94 | for the keys "9" and "10", in either order, sortTree adds "10" first, as string order says, yet the object lists "9" first |
| LocaleTree.SortTree | scripts/extract-locale-keys.js:87-94 | an object is rebuilt with its keys added in sorted order, each value sorted in turn, anything else returned as it is; the lemmas SortTreeOrdered, SortTreeListed and SortTreePaths state its properties |
| LocaleTree.SortTreePaths | scripts/extract-locale-keys.js:87-94 | sortTree keeps exactly the same leaf paths, so the same keys and nesting |
| ActivityUtils.FilterByStatus | features/activity/utils.ts:13-18 | every activity kept has the requested status |
| ActivityUtils.FilterByStatusMember | features/activity/utils.ts:13-18 | an activity is kept exactly when it is in the list with that status |
| ActivityUtils.FilterByStatusAppend | features/activity/utils.ts:13-18 | filtering keeps input order: filtering a concatenation concatenates the filtered parts |
| ActivityUtils.StatusFiltersPartition | features/activity/utils.ts:13-18 | the three status filters together hold every activity that has a status, each once |
| ActivityUtils.LocaleCompare | features/activity/utils.ts:28 | the comparison is zero exactly for equal names and negative exactly when the first name sorts before the second |
| ActivityUtils.CompareAsWritten | features/activity/utils.ts:22-28 | as written, activities whose weight fields differ compare by the difference of the weights, with a missing weight read as 0 |
| ActivityUtils.ComparatorInconsistent | features/activity/utils.ts:22-28 | as written, the comparator is not a consistent order: "b" without weight ties with "a" of weight 0, which ties with "a" without weight, yet "b" sorts after that last "a" |
| ActivityUtils.CompareCorrectedIsOrder | features/activity/utils.ts:22-28 | the corrected comparator, which reads a missing weight as 0 before comparing, is antisymmetric and agrees with the weight-descending, name-ascending order |
| ActivityUtils.AsWrittenDiffersOnlyOnMissingVersusZero | features/activity/utils.ts:24-26 | the comparator as written and the corrected one differ only when one weight is missing and the other is 0 |
| ActivityUtils.ActivityLeTotal | features/activity/utils.ts:22-28 | any two activities are ordered one way or the other |
| ActivityUtils.ActivityLeTransitive | features/activity/utils.ts:22-28 | the order is transitive |
| ActivityUtils.SortActivities | features/activity/utils.ts:21-30 | sorting returns a new list that is a permutation of the input |
| ActivityUtils.SortActivitiesSorted | features/activity/utils.ts:21-30 | the result is sorted by weight descending (missing as 0), then by name, and is a permutation of the input |
| ActivityUtils.GroupActivitiesByCategory | features/activity/utils.ts:32-46 | the reduce loop builds exactly the grouping by category id, with "uncategorized" for a missing or empty one |
| ActivityUtils.GroupsStep | features/activity/utils.ts:37-42 | one more activity is appended to its category's group, which is created when missing |
| ActivityUtils.GroupsMember | features/activity/utils.ts:32-46 | an activity is in a group exactly when it is in the list and the group is its category |
| ActivityUtils.GroupsNonEmpty | features/activity/utils.ts:38-41 | no group is empty |
| ActivityUtils.GroupsAppend | features/activity/utils.ts:32-46 | groups keep input order: a group of a concatenation is the groups of the parts concatenated |
| ActivityUtils.FindActivityById | features/activity/utils.ts:49-54 | finds an activity with the id, or none exactly when no activity has it |
| ActivityUtils.FindActivityByIdFirst | features/activity/utils.ts:49-54 | what is found is the first activity with the id |
| ActivityUtils.ValidateActivity | features/activity/utils.ts:57-82 | the name error is reported exactly for a missing or blank name, the category error exactly for a missing or empty category, the weight error exactly for a present weight that is NaN or outside [MIN, MAX] (null read as 0), and the errors come in that order |
| ActivityUtils.RemoveFirstHash | features/activity/utils.ts:87 | only the first "#" is removed, and a colour without one is unchanged |
| ActivityUtils.Substr | features/activity/utils.ts:88-90 | substr within bounds is the slice, and never longer than asked |
| ActivityUtils.ContrastTextColor | features/activity/utils.ts:85-93 | the colour is black or white, and white whenever a channel does not parse |
| ActivityUtils.ParseHex2 | features/activity/utils.ts:88-90 | two hex digits parse back to their byte |
| ActivityUtils.ContrastOfRgb | features/activity/utils.ts:85-93 | for "#rrggbb" the text is black exactly when 299r + 587g + 114b exceeds 128000 |
| ActivityUtils.ContrastFromChannels | features/activity/utils.ts:85-93 | whenever the three channels parse, the text is black exactly when 299r + 587g + 114b exceeds 128000 |
| DateTime.ParseDateFormat | shared/utils/datetime.ts:207-245 | the forEach over the sorted positions lists exactly the components present in the upper-cased format, in order of their first position; day and month padding hold exactly when "DD" and "MM" occur |
| DateTime.PresentAppend | shared/utils/datetime.ts:232-236 | one more position adds its component exactly when it was found |
| DateTime.SlotIndex | shared/utils/datetime.ts:219-221 | a component is found exactly when its long form ("DD", "MM", "YYYY") occurs, and its position is the first occurrence |
| DateTime.StartsDiffer | shared/utils/datetime.ts:219-221 | two different components never start at the same position |
| DateTime.SortedSlots | shared/utils/datetime.ts:223-230 | sorting the three positions gives an ordered permutation of them |
| DateTime.SlotLeOrders | shared/utils/datetime.ts:230 | the position order is total and transitive |
| DateTime.PresentFacts | shared/utils/datetime.ts:223-236 | after sorting, the listed components are exactly those found, in increasing position |
| DateTime.OrderFacts | shared/utils/datetime.ts:207-236 | the order lists every component present in the format, in strictly increasing start position |
| DateTime.SeparatorPosition | shared/utils/datetime.ts:242-243 | the separator is the first character that is not a D, M or Y letter of either case, or "/" when there is none |
| DateTime.CaseInsensitive | shared/utils/datetime.ts:215 | a format and its lower-case form give the same order and padding |
| DateTime.ComponentTexts | shared/utils/datetime.ts:259-275 | one text per listed component, each its padded or plain number |
| DateTime.ComponentTextChars | shared/utils/datetime.ts:259-266 | a component's text is digits, with a leading minus only for a negative year |
| DateTime.FormattedParts | shared/utils/datetime.ts:255-276 | splitting the formatted date at the separator gives back the component texts in format order |
| DateTime.FormatDateWithCustomFormat | shared/utils/datetime.ts:255-276 | the date's component texts joined by the format's separator in format order; FormattedParts, DayMonthYear and CaseInsensitive state its results |
| DateTime.DayMonthYear | shared/utils/datetime.ts:255-276 | the format "DD/MM/YYYY" gives the two-digit day, the two-digit month and the year joined by slashes |
| DateTime.DayMonthYearJoined | shared/utils/datetime.ts:255-276 | any format of the shape DD/MM/YYYY, in any letter case, gives the same text |
| DateTime.CreateSafeDate | shared/utils/datetime.ts:458-485 | an input of another type is an invalid-type error; a value that does not parse is an invalid-value error; otherwise the date is returned exactly when its year is within 1900..2100 |
| DateTime.SafeDateIdempotent | shared/utils/datetime.ts:458-485 | a date that createSafeDate accepted is accepted again unchanged |
| DateTime.SafeDateYearError | shared/utils/datetime.ts:480-483 | the year error carries the parsed date's year, which is outside 1900..2100 |
| Decryptor.WithoutSpaces | features/migration/lib/decryptor.ts:46 | removing whitespace keeps exactly the characters that are not whitespace |
| Decryptor.IsMessageEncrypted | features/migration/lib/decryptor.ts:35-64 | an empty message is never encrypted; a message with the CryptoJS prefix "U2FsdGVkX1" always is, and so is one the entropy test flags |
| Decryptor.ProseNeedsOtherEvidence | features/migration/lib/decryptor.ts:45-64 | a message with a character outside the base64 alphabet, "=" and whitespace is encrypted exactly when it has the CryptoJS prefix or the entropy test flags it |
| Decryptor.LongBase64Encrypted | features/migration/lib/decryptor.ts:45-60 | a message longer than 20 characters made of base64 characters, optional trailing "=" and whitespace counts as encrypted |
| Decryptor.ProcessNote | features/migration/lib/decryptor.ts:173-214 | the original message is kept; a plain message passes unchanged and counts as a success; an encrypted one becomes its decryption when that is non-empty, and otherwise the fixed "unable to decrypt" text with the failure flag |
| Decryptor.FailureOnlyWhenEncrypted | features/migration/lib/decryptor.ts:173-214 | only an encrypted note can fail, and it then carries the "unable to decrypt" text; the message changes only for encrypted notes |
| Decryptor.EmptyNoteUnchanged | features/migration/lib/decryptor.ts:184-191 | an empty note is plain, successful and unchanged |
| Decryptor.ProcessAll | features/migration/lib/decryptor.ts:220-239 | one result per message, in order, each keeping its original message |
| Decryptor.BatchProcess | features/migration/lib/decryptor.ts:220-239 | the sequential loop produces the result of processing each message in turn |
| Decryptor.GetDecryptionStats | features/migration/lib/decryptor.ts:245-271 | the total is the number of notes, the encrypted count the notes that were encrypted, the decrypted count those also decrypted successfully; failed is encrypted minus decrypted; the success rate is decrypted / encrypted * 100 when something was encrypted, 100 otherwise, and always within 0..100 |
| Decryptor.EncryptedSplit | features/migration/lib/decryptor.ts:245-262 | when every note is either successful or encrypted, the encrypted notes are the decrypted ones plus the failed ones |
| Decryptor.BatchStats | features/migration/lib/decryptor.ts:220-262 | for a processed batch the total is the number of messages and the failed count is exactly the number of notes that failed |
| LocaleNotifications.ToStringOf | shared/notifications/providers/LocaleNotificationProvider.ts:240 | a metadata value has a string form unless it is null or undefined |
| LocaleNotifications.WordRun | shared/notifications/providers/LocaleNotificationProvider.ts:239 | the run of word characters at the front of a text, stopping at the first other character |
| LocaleNotifications.PlaceholderKey | shared/notifications/providers/LocaleNotificationProvider.ts:239 | a placeholder is "{{", a non-empty run of word characters and "}}", and its key is that run |
| LocaleNotifications.InterpolateUnresolved | shared/notifications/providers/LocaleNotificationProvider.ts:234-248 | when no placeholder resolves to a non-empty string, interpolation returns the text unchanged |
| LocaleNotifications.InterpolateNoVariables | shared/notifications/providers/LocaleNotificationProvider.ts:234-248 | interpolating with no variables leaves the text unchanged |
| LocaleNotifications.NoPlaceholderUnchanged | shared/notifications/providers/LocaleNotificationProvider.ts:234-248 | a text without placeholders is unchanged |
| LocaleNotifications.SinglePlaceholder | shared/notifications/providers/LocaleNotificationProvider.ts:234-248 | a placeholder between brace-free text is replaced by the variable's string form when it is non-empty and kept as written otherwise |
| LocaleNotifications.WholePlaceholder | shared/notifications/providers/LocaleNotificationProvider.ts:234-248 | a template that is one placeholder becomes its replacement |
| LocaleNotifications.BraceFree | shared/notifications/providers/LocaleNotificationProvider.ts:234-248 | a text without braces is unchanged by interpolation |
| LocaleNotifications.InterpolateTemplate | shared/notifications/providers/LocaleNotificationProvider.ts:234-248 | title and body are interpolated alike; with no variables the template comes back unchanged |
| LocaleNotifications.GetLocalizedTitle | shared/notifications/providers/LocaleNotificationProvider.ts:204-232 | a key without a title row is returned as it is |
| LocaleNotifications.TitleRowsFilled | shared/notifications/providers/LocaleNotificationProvider.ts:209-229 | every title in the table is non-empty |
| LocaleNotifications.TitleFallback | shared/notifications/providers/LocaleNotificationProvider.ts:204-232 | a known key gets its title in the language when the table has that language, the English title otherwise; an unknown key is returned as it is |
| LocaleNotifications.Pick | shared/notifications/cadenceMessages.ts:55-72 | a random draw in [0, 1) picks an index within the list |
| LocaleNotifications.ReplaceFirst | shared/notifications/cadenceMessages.ts:71 | string replace with a string pattern replaces only the first occurrence, and leaves a text without the pattern unchanged |
| LocaleNotifications.LocalizedContent | shared/notifications/providers/LocaleNotificationProvider.ts:153-202 | midday and evening notifications get the localized title and one of the ten or 27 fixed messages; a streak reminder with a count gets the streak title |
| LocaleNotifications.OwnTableOnly | shared/notifications/providers/LocaleNotificationProvider.ts:189-201 | other types use the language's own template table when it has one: a type in it is interpolated, a type missing from it gives the default content even when English has a template |
| LocaleNotifications.UnknownLanguageAsEnglish | shared/notifications/providers/LocaleNotificationProvider.ts:189-232 | a language with neither templates nor titles is shown exactly as English |
| LocaleNotifications.StreakBody | shared/notifications/providers/LocaleNotificationProvider.ts:179-187 | the streak body is one of the five streak messages with its first "{{streakCount}}" replaced by the count |
| LocaleNotifications.FirstSeparator | shared/notifications/providers/LocaleNotificationProvider.ts:129 | the first hyphen or underscore, or the end of the text |
| LocaleNotifications.CurrentLanguage | shared/notifications/providers/LocaleNotificationProvider.ts:129-130 | the language is the part before the first "-" or "_", lower-cased, and "en" when the i18n language is unset or empty |
| LocaleNotifications.CurrentLanguageIdempotent | shared/notifications/providers/LocaleNotificationProvider.ts:129-130 | taking the language of a language code already reduced changes nothing |
| LocaleNotifications.RegionStripped | shared/notifications/providers/LocaleNotificationProvider.ts:129-130 | "da-DK" and "da_dk" both give "da" |
| LocaleNotifications.TemplateTable | shared/notifications/providers/LocaleNotificationProvider.ts:250-330 | each language's table holds the achievement, reminder and system templates, the last two with body "{{message}}" |
| LocaleNotifications.InitialTable | shared/notifications/providers/LocaleNotificationProvider.ts:250-330 | each of the five languages has the three templates, reminder and system showing the message |
| LocaleNotifications.InitialTemplates | shared/notifications/providers/LocaleNotificationProvider.ts:250-330 | the initial templates are exactly the five languages' tables |
| LocaleNotifications.ReminderShowsMessage | shared/notifications/providers/LocaleNotificationProvider.ts:250-330 | a reminder with a non-empty message shows that message as its body in any language |
| LocaleNotifications.MergeTemplates | shared/notifications/providers/LocaleNotificationProvider.ts:333-336 | adding templates keeps the existing types, with the added ones winning |
| LocaleNotifications.AddedTemplateUsed | shared/notifications/providers/LocaleNotificationProvider.ts:333-336 | after adding a template for a language, a notification of that type in that language is rendered from it |
| LocaleNotifications.LocaleNotificationProvider.constructor | shared/notifications/providers/LocaleNotificationProvider.ts:31-34 | the provider starts with the initial templates for the five languages |
| LocaleNotifications.LocaleNotificationProvider.AddTemplates | shared/notifications/providers/LocaleNotificationProvider.ts:333-336 | the language's table becomes the merge, and a new language is appended to the languages in insertion order |
| LocaleNotifications.LocaleNotificationProvider.SupportedLanguages | shared/notifications/providers/LocaleNotificationProvider.ts:339-341 | the supported languages are the template table's languages, each once |
| LocaleNotifications.LocaleNotificationProvider.LocalizeNotification | shared/notifications/providers/LocaleNotificationProvider.ts:124-151 | the notification keeps its id, type and metadata and gets the title and body of the localized content for the current language |
| DeepLinks.AssignedLookup | features/auth/services/deep-links.ts:21-23 | assigning entries in order gives every assigned name its last value and keeps the names not assigned |
| DeepLinks.AssignEntries | features/auth/services/deep-links.ts:21-36 | the for-of loop assigns each entry in turn, so later entries win |
| DeepLinks.ParseDeepLinkUrl | features/auth/services/deep-links.ts:7-72 | the loops compute the parameters of the link, by the Expo rule or the general rule |
| DeepLinks.ParsedParams | features/auth/services/deep-links.ts:7-72 | the parameters of a link: for exp:// the fragment then the query entries assigned in turn, otherwise the parsed query then the fragment, and none when parsing throws; ExpoQueryWins and FragmentWins state the winner on a shared name |
| DeepLinks.ExpoQueryWins | features/auth/services/deep-links.ts:13-42 | for an exp:// link the parameters are those of the fragment and the query, with the query winning on a shared name |
| DeepLinks.FragmentWins | features/auth/services/deep-links.ts:45-66 | for other links the parameters are the parsed query's and the fragment's, with the fragment winning on a shared name |
| DeepLinks.ParseFailureEmpty | features/auth/services/deep-links.ts:67-70 | a link the parser rejects gives no parameters |
| DeepLinks.FirstMatchFirst | features/auth/services/deep-links.ts:168-206 | the if-chain returns the first rule whose test holds, and nothing when none holds |
| DeepLinks.ModalRoute | features/auth/services/deep-links.ts:168-170 | an empty link shows no modal |
| DeepLinks.ModalRouteFirstMatch | features/auth/services/deep-links.ts:168-206 | the modal for a non-empty link is the first of reset-password, magic-link, login, signup and otp whose test holds |
| DeepLinks.ModalNeedsSign | features/auth/services/deep-links.ts:168-206 | a modal is shown only when the link contains its name, or for reset-password and magic-link when the type parameter names that flow |
| DeepLinks.ToAuthUser | features/auth/services/deep-links.ts:120-127 | the user's name is the full name when set, else the email, else empty; the id and email come from the session |
| DeepLinks.ErrorBeforeNetwork | features/auth/services/deep-links.ts:98-108 | a callback with an error fails with the description, else the error, without consulting the session exchange or the token handler |
| DeepLinks.MissingParametersRejected | features/auth/services/deep-links.ts:110-160 | a callback with no error, no code and not both tokens fails as an invalid callback |
| DeepLinks.CodeSessionSucceeds | features/auth/services/deep-links.ts:110-131 | a code that yields a session logs the user in |
| DeepLinks.HandleLoginCallback | features/auth/services/deep-links.ts:74-166 | an error parameter fails first, then a code is exchanged for a session, then both tokens go to the token handler, and anything else is an invalid callback; ErrorBeforeNetwork, MissingParametersRejected and CodeSessionSucceeds state the cases |
| DeepLinks.DefinedMembers | features/auth/services/deep-links.ts:294-298 | exactly the parameters that have a value are serialised |
| DeepLinks.CreateAuthDeepLink | features/auth/services/deep-links.ts:282-307 | the loop appends the defined parameters in order, and the link is the base plus the Expo callback path for exp:// bases, then "#" and the serialised parameters |
| DeepLinks.ExpoLinkShape | features/auth/services/deep-links.ts:300-303 | an exp:// link built from clean parts has the serialised parameters as its fragment and no query |
| DeepLinks.ExpoLinkRoundTrip | features/auth/services/deep-links.ts:282-307 | parsing an exp:// callback link built from parameters gives back the parameters that had a value, when the serialiser escapes "#" and "?" and the decoder inverts it |
| DeepLinks.DefinedValueReadBack | features/auth/services/deep-links.ts:282-307 | with distinct names, a parameter given a value reads back as that value |
| ActivityPresets.ActivityPresetList | features/onboarding/data/activityPresets.ts:13-283 | the preset list holds the 28 presets in order |
| ActivityPresets.PresetIdsDistinct | features/onboarding/data/activityPresets.ts:13-283 | no two presets share an id |
| ActivityPresets.PresetsEnabledAndWeighted | features/onboarding/data/activityPresets.ts:13-283 | every preset is enabled with a weight between 0 and 1 |
| ActivityPresets.ConvertPresetToActivity | features/onboarding/data/activityPresets.ts:293-308 | the new activity has no id yet and no parent; it takes the preset's colour, status and weight, the localized name, the user and the category |
| ActivityPresets.ConvertedPresetEnabled | features/onboarding/data/activityPresets.ts:13-308 | an activity created from any preset is enabled with a weight between 0 and 1 |

## Left out

- Rendering, hooks, navigation, logging, and React and Zustand wiring are not modelled. A store is a class whose methods make the same field changes as the store's `set` calls.
- `handleApiCall` and `handleVoidApiCall` (shared/stores/utils/utils.ts) are not part of this model. Their effect on a store is modelled from its callers: on failure the default result and the error message, on success the update, and loading ends either way. The `isLoading = true` state during a call is not modelled.
- shared/utils/activityOrderStorage.ts is not part of this model. The activities store's refresh uses `OrderStorage.SortedByStoredOrder` with the stored order as a parameter.
- Network and storage I/O are parameters (`ApiOutcome`, read and write outcomes, store lookups). This covers AsyncStorage, Supabase, the App Store lookup, `Notifications.*` permissions and scheduling, and `fetch`. The exceptions these calls throw are modelled only as failed outcomes.
- Time zones and daylight saving are not modelled. Local dates and clock times come from parameters (`local`, `dayOf`, `parse`), including `toLocaleDateString`, `getHours`, `setHours(0,0,0,0)` and `toISOString` day keys.
- Floating point is not modelled: minutes and rates are exact. `Math.round` is modelled on integer milliseconds (halves round up).
- Strings are counted in characters, not UTF-16 code units. Case mapping covers ASCII only; `\s` and `trim` use the full set of Unicode white space and line terminators. `localeCompare` is the character order (`ActivityUtils.LocaleCompare`).
- Objects used as dictionaries are maps, so their key order is not modelled. The exceptions are the tallies, which keep Map insertion order explicitly, and the JSON objects of `LocaleTree`, which keep their members in insertion order; `LocaleTree.PropertyOrder` gives the order in which JavaScript lists them.
- `AppUpdate`: the `_initialize` AppState listener, the singleton `getInstance` and `getCurrentBuildNumber` are not modelled. `checkAndroidUpdate` returns a fixed record and is modelled inside `CheckForUpdates`.
- `NotificationsStore.NotificationsStore.ScheduleNotifications`: the error path taken when `scheduleNotificationAsync` rejects is not modelled.
- `NotificationSettings.AutomaticTiming`: "24:00" is treated as an invalid time. An invalid wake time gives "NaN:NaN" fields, as the code does, and the catch branch with its defaults cannot be reached.
- `InAppNotifications.InAppNotificationProvider`: subscribers, `notifySubscribers`, the `setTimeout` auto-hide and scheduling timers, `initialize` and `isSupported` are not modelled. A negative display limit -k hides the k oldest visible notifications and keeps the rest, as `slice` with a negative start does.
- `AuthErrors`: the `Timeout` group of the error patterns is not in the `AuthErrorType` union. It is modelled as an extra kind, and `getErrorMessage` gives no text for it. `showAuthError` (an alert) is not modelled.
- `ReflectionState.ReflectionStore.LoadReflectionData`: the rethrow after a failure and the "Failed to load reflection data" text for non-Error throws are not modelled. The UTC day bounds of the request are part of the fetch parameter. `getTimesliceInformation` (the store and features/reflection/utils/index.ts) and `fetchPeriodTimeslices` only orchestrate fetches and are not modelled.
- `Insights.CalculateNoteInsights`: only `message` is read. The `content` and `text` fallbacks are not fields of the note row. `getMoodLabel` and `generateWeeklyInsights` are not modelled.
- `Streaks.CalculateStreakData`: days are day numbers. Building each day's key through `toISOString` after a local `setHours` is not modelled.
- `ResourceLists.BatchReplaceFacts` states that a replaced element comes from the returned batch. It does not state that it is the first batch element with that id, although the definition picks the first.
- `NotesResource.NotesStore.GetNotes` requires one lookup result per id, which `Promise.all` guarantees.
- `ActivityUtils.ValidateActivity`: `WEIGHT_CONFIG` (shared constants) is not part of this model, so MIN and MAX are parameters. `generateRandomColor` and `getWeightDescription` are not modelled.
- `Decryptor.IsMessageEncrypted`: the Shannon-entropy test is a boolean parameter. Only the branches that do not depend on it are stated exactly. `decryptMessage`, `getEncryptionKey` and `hasEncryptionKey` (CryptoJS, AsyncStorage) are parameters or not modelled.
- `Decryptor.GetDecryptionStats`: the success rate is an exact percentage, not a float.
- `LocaleNotifications`:
  - The static notification creators (LocaleNotificationProvider.ts:344-373) are not modelled.
  - The calls forwarded to the wrapped provider (36-120) and the catch in `localizeNotification` are not modelled.
  - `$` patterns in `String.replace` replacements are not modelled.
  - Metadata values are strings, numbers, booleans or null; arrays and objects are not modelled.
  - shared/notifications/types.ts is not part of this model.
- `DeepLinks`:
  - `URLSearchParams` parsing and serialising and `Linking.parse` are parameters (application/x-www-form-urlencoded, section 5 of the WHATWG URL Standard). Expo query values that are arrays are not modelled.
  - The exceptions that Supabase calls throw are not modelled.
  - `setupDeepLinkListener` (208-276) is not modelled.
  - The `DEEP_LINK_TYPES` values are a parameter; features/auth/utils/constants.ts is not part of this model.
- `ActivityPresets`: the relation between a preset's `nameKey` and the locale files is not stated.
- `LocaleTree`: the `main` driver of scripts/extract-locale-keys.js is not modelled. It reads files, walks directories, parses arguments, filters keys containing "node_modules", "packages." or "/", and writes output. Keys longer than one part that walk through an inherited name are only partly modelled; see `LocaleTree.BuildTree` below.
- `LocaleTree.BuildTree`: a key that walks through an inherited name leaves the tree, and the model then stops. In the script the walk goes on in the object it reaches. Through `__proto__.` or `constructor.prototype.` that object is `Object.prototype`, and the last part is assigned there. Every later `in` test then sees that name, so a later key of that name is lost: `["__proto__.foo", "foo"]` gives `{}` in the script and `{"foo": ""}` in the model. A walk through another inherited name, such as `constructor.` or `toString.`, assigns on a function object. None of this changes the tree for keys whose parts are not inherited names (`LocaleTree.AsWrittenAgreesWithoutPrototypeNames`).
- `LocaleTree.ExtractKeys` lists a parsed object's keys in insertion order. JavaScript lists array-index keys first, by value. The script sorts the extracted keys before printing them, so only the order inside the model's result differs.
- `InAppNotifications.InAppNotificationProvider.GetVisibleNotifications` and `GetAllNotifications` leave open the order among notifications with equal timestamps. The stable sort in the source keeps the Map's insertion order among them.
- `InAppNotifications.InAppNotificationProvider.EnforceDisplayLimit`: which of several notifications with equal timestamps are hidden is left open for the same reason. The model promises only that none hidden is newer than one kept.
- Lookups in plain objects ignore inherited properties. In JavaScript a lookup by a name such as "toString" or "constructor" finds the function that `Object.prototype` holds. This affects `ClerkErrors.GetClerkErrorMessage` (the code "toString" gives that function, not the fallback), `LocaleNotifications.Interpolate` ("{{constructor}}" with no such variable becomes the text of the `Object` function), `LocaleNotifications.GetLocalizedTitle` and the `DialogStore` lookups by dialog id. The model treats such names as absent.
- `PersonaService.ValidateTimeRange`: times that do not parse make every comparison false, so such a range is accepted, as the code does (`PersonaService.UnreadableTimesAccepted`).

## Findings

| source | as written | input that shows it | evidently intended | confidence | as-written member | corrected member |
|---|---|---|---|---|---|---|
| scripts/extract-locale-keys.js:71 | `part in node` also sees properties inherited from `Object.prototype`, so a key part such as "constructor" counts as already present and no leaf is created | keys `["constructor"]` build the tree `{}`, so the key is lost | test own properties only, so that every non-empty key gets its leaf | not executed | LocaleTree.PrototypeNamedKeyLost | LocaleTree.CorrectedRoundTrip |
| features/activity/utils.ts:24-26 | weights are compared before the missing-weight default is applied: a missing weight and weight 0 count as different and give difference 0, so the name order is skipped | activities "b" without weight, "a" with weight 0 and "a" without weight: the first ties with the second, the second with the third, yet the first sorts after the third, so the comparator is inconsistent and `sort`'s result depends on the engine | default both weights to 0 first, then compare names when they are equal | not executed | ActivityUtils.ComparatorInconsistent | ActivityUtils.SortActivitiesSorted |
