# Agent form state, in Dafny

This project models the form-state layer of a React form that configures a voice agent
(`AgentForm`, its stand-alone handlers, the reusable validation hook, the upload hook and the
HTTP error mapping). It proves properties of that model.

- The agent's values are kept in state hooks. `getValidationErrors` turns them into an error
  map of the six required fields. `validateForm` writes that map and, on failure, marks every
  required field touched. An error is on screen only when its field is touched.
- `getSnapshot` normalises the form: four text fields trimmed, attachment ids sorted and
  joined by ",". A baseline snapshot is taken once and reset after each successful save.
  `isDirty` compares the current snapshot with the baseline, field by field.
- `handleFiles` and `uploadFiles` walk a file list in order. A file whose extension is not
  accepted is skipped. `handleFiles` sends each accepted file through the three-step upload
  of `useUpload`; `uploadFiles` hands it to the `uploadFile` callback it is given. A resolved
  upload is appended, and a rejected one is passed over.
- `removeFile` and `removeAttachment` drop one position.
- `handleSave` POSTs in create mode and PUTs in edit mode when `agentId` is set;
  `saveAgent` does the same with the id it is given. `handleTestCall`/`startTestCall` place
  a test call.
- `getErrorMessage` and the response interceptor turn every failed request sent through
  `api` into a toast and re-reject it. The upload's `fetch` PUT bypasses both.

Modules follow the source files:

| module | file |
|---|---|
| `Api` | `api.dfy` — src/lib/api.ts |
| `Validation` | `validation.dfy` — src/hooks/useAgentFormValidation.ts |
| `Upload` | `upload.dfy` — src/hooks/useUpload.ts |
| `Handlers` | `handlers.dfy` — src/components/agents/agent-form/handlers.ts |
| `FormState` | `form_state.dfy` — the pure part of agent-form.tsx |
| `AgentForm` | `agent_form.dfy` — the stateful part of agent-form.tsx, as the class `Form` |
| `Files` | `files.dfy` — the extension filter, the append loop's specification, index removal |
| `JsText` | `js_text.dfy` — the JavaScript string operations used: `trim`, `toLowerCase`, `split(".").pop()`, `sort`, `join(",")` |
| `AgentTypes` | `agent_types.dfy` — the records exchanged with the back end, and the request log |
| `Maybe` | `maybe.dfy` — `Option` and `Result` |

How the model is built:

- The network is an oracle. Each operation takes the answer of every request it may send as
  a parameter: `Ok(value)`, or `Err(error)` for a rejection.
- Every request sent is appended to a `sent` log, together with the `saving` and `calling`
  flags at the moment it left. Statements such as "`saving` is raised while the request is
  out" become statements about that log.
- Every toast is appended to a `toasts` log. A toast the code shows itself is logged as
  `Shown(Toast(icon, title))`. The interceptor's toast is logged as `Intercepted(error)`.
  `Api.Displayed` turns that into the toast shown: error icon, title `getErrorMessage(error)`.
- React's two effects run after every change of their dependencies. The sync effect makes the
  error map follow the values. The baseline effect captures a snapshot while none exists.
- JavaScript truthiness of `agentId: string | null` is `HasId`: present and not `""`.

Behaviour of the code worth knowing:

- A save is not gated by validation. Only the Save button calls `validateForm` first
  (`ClickSave`); `handleTestCall` saves without validating. The mode picks create or update,
  not the presence of an id. So a create-mode form POSTs again on every save, even after it
  got an id (`SaveOutcomes`).
- The snapshot trims the name but the payload does not. Two forms differing in trailing
  spaces have equal snapshots and different payloads (`TrailingSpaceNotDirty`). The attachment
  key also conflates lists: an id holding a comma, or an empty id
  (`AttachmentKeyCollisions`).
- An edit form never has an id. `agentId` starts `null` (agent-form.tsx:195), only the
  create branch of `handleSave` sets it (agent-form.tsx:404), and the props carry no id
  (agent-form.tsx:133-136). So in edit mode `handleSave` sends nothing and shows nothing,
  and `handleTestCall` always ends with "Agent must be saved before test call."
  (`EditFormNeverSends`). The PUT branch (`PutAgentRequest`) is reached only from a state with
  an id, which mounting an edit form never produces.
- A test call on an unsaved form runs the save and then stops: the call is never placed in
  that invocation (see Findings).
  - With an empty phone and no id, a create-mode form still sends the create request.
  - With an id and an empty phone, nothing is sent.
- `calling` is raised only around the test-call request (agent-form.tsx:501-535). The save
  that `handleTestCall` runs first goes out with `calling` still false.
- A failed file transfer is silent. The upload's second step is a plain `fetch` PUT
  (useUpload.ts:26), outside `api`, so no interceptor toast follows it, and an HTTP error
  status on it counts as success (`TransferStatusUnchecked`). A thrown transfer fails that
  file's upload and sets the hook's error to "File upload failed", which the form never
  reads; `handleFiles` passes over the file without a toast.
- The badge counts values that are exactly `""`, while the save check trims the name: a blank
  name gives a badge of 0 and still blocks the save (`BadgeOverlooksBlankName`).

## Model

| member | source | states |
|---|---|---|
| JsText.TrimStartSpec | src/components/agents/agent-form.tsx:241 | the left trim keeps the suffix that starts at the first non-space; what it drops is all white space |
| JsText.TrimEndSpec | src/components/agents/agent-form.tsx:241 | the right trim keeps the prefix that ends at the last non-space; what it drops is all white space |
| JsText.TrimEmpty | src/hooks/useAgentFormValidation.ts:34 | `s.trim()` is empty exactly when `s` is white space only |
| JsText.TrimEnds | src/components/agents/agent-form.tsx:241 | a non-empty trimmed value starts and ends with a non-space |
| JsText.TrimAppendSpace | src/components/agents/agent-form.tsx:241 | white space appended to a string never changes its trimmed value |
| JsText.TrimStartAppend | src/components/agents/agent-form.tsx:241 | left-trimming a string that is not all white space commutes with appending |
| JsText.TrimEndAppendSpace | src/components/agents/agent-form.tsx:241 | right-trimming ignores appended white space |
| JsText.ToLowerSpec | src/components/agents/agent-form.tsx:365 | lower-casing keeps the length, leaves no ASCII capital, turns each capital into the small letter at the same place in the alphabet, and keeps every other character |
| JsText.ToLowerKeepsLower | src/components/agents/agent-form.tsx:365 | a string without ASCII capitals is its own lower case |
| JsText.ToLowerIdempotent | src/components/agents/agent-form.tsx:365 | lower-casing twice is lower-casing once |
| JsText.LastSegmentSpec | src/components/agents/agent-form.tsx:365 | `split(".").pop()` holds no dot, ends the name, and is the whole name or follows its last dot |
| JsText.LastSegmentOfTail | src/components/agents/agent-form.tsx:365 | the segment after the last dot is exactly the dot-free tail |
| JsText.LastSegmentNoSeparator | src/components/agents/agent-form.tsx:365 | a name without a dot is its own last segment |
| JsText.LeTotal | src/components/agents/agent-form.tsx:255 | the string order of `sort` is total |
| JsText.LeAntisymmetric | src/components/agents/agent-form.tsx:255 | the string order of `sort` is antisymmetric |
| JsText.LeTransitive | src/components/agents/agent-form.tsx:255 | the string order of `sort` is transitive |
| JsText.InsertPermutes | src/components/agents/agent-form.tsx:255 | one insertion step of the sort adds exactly the inserted id |
| JsText.SortPermutes | src/components/agents/agent-form.tsx:255 | sorting the ids is a permutation |
| JsText.SortSorted | src/components/agents/agent-form.tsx:255 | sorting yields an ordered sequence |
| JsText.SortedUnique | src/components/agents/agent-form.tsx:255 | two ordered sequences holding the same strings are equal |
| JsText.SortPermutationInvariant | src/components/agents/agent-form.tsx:255 | sorting forgets the order the ids came in |
| JsText.JoinShape | src/components/agents/agent-form.tsx:255 | `join(",")` of comma-free non-empty ids is empty only for no ids, and has no comma for one id |
| JsText.JoinInjective | src/components/agents/agent-form.tsx:255 | on non-empty, comma-free ids `join(",")` is injective |
| Api.StatusMessage | src/lib/api.ts:8-30 | the status switch always yields a non-empty message |
| Api.ErrorMessage | src/lib/api.ts:4-31 | `getErrorMessage` always yields a non-empty message |
| Api.BodyTextFirst | src/lib/api.ts:5-7 | a non-empty string `message` in the body is the message; failing that, a non-empty string `error` |
| Api.WithoutBodyText | src/lib/api.ts:8-30 | without body text the message is one of the fixed ones: the network message exactly when no response came, otherwise the status message |
| Api.StatusMessagesDistinct | src/lib/api.ts:12-24 | 400, 401, 403, 404, 422 and 429 have six pairwise distinct messages, none of them the server or the generic one |
| Api.StatusFallback | src/lib/api.ts:25-29 | any other status of 500 or more maps to the server message; every other status, or none, to the generic one |
| Api.InterceptedToast | src/lib/api.ts:37-53 | the toast a failed `api` request leaves is an error toast, never untitled; its title is the body's text when there is some, otherwise a fixed message, the network one exactly when no response came |
| AgentTypes.IdsConcat | src/components/agents/agent-form.tsx:392 | the ids of a list grown by appending are the old ids followed by the new ones |
| AgentTypes.IdsMembers | src/components/agents/agent-form.tsx:392 | an id is in `attachments.map(f => f.id)` exactly when some attachment carries it |
| AgentTypes.IdsPermutation | src/components/agents/agent-form.tsx:255 | reordering the attachments reorders their ids the same way |
| Upload.StepsArePrefix | src/hooks/useUpload.ts:20-40 | a call sends a non-empty prefix of url request, PUT, registration, in that order; all three exactly when neither of the first two threw |
| Upload.UploadSucceedsIff | src/hooks/useUpload.ts:35-42 | the call resolves with `a` exactly when all three steps went through and registration answered `a`; the registration carries step 1's key and the file's name, size and type |
| Upload.TransferStatusUnchecked | src/hooks/useUpload.ts:26-32 | the PUT's status never matters: any two statuses give the same outcome and the same requests |
| Upload.Uploader.UploadFile | src/hooks/useUpload.ts:16-52 | `uploadFile` settles as the steps dictate, logs those steps with `uploading` raised, ends with `uploading` false, and sets the error "File upload failed" exactly on failure (cleared otherwise) |
| Files.ExtensionAfterLastDot | src/components/agents/agent-form.tsx:365 | the extension of `stem.tail` (no dot in `tail`) is "." plus `tail` lower-cased |
| Files.ExtensionWithoutDot | src/components/agents/agent-form.tsx:365 | a name without a dot is its own extension, after "." |
| Files.ExtensionOf | src/components/agents/agent-form.tsx:365 | a lower-case tail after the last dot is the extension unchanged |
| Files.ExtensionIgnoresCase | src/components/agents/agent-form.tsx:365 | the filter ignores the case of the extension: "a.b.PDF" has the extension of "a.b.pdf" |
| Files.AcceptsExamples | src/components/agents/agent-form.tsx:338-346 | "a.pdf" and "c.docx" pass `ACCEPTED_TYPES`, "b.exe" does not |
| Files.AcceptedFlagsSpec | src/components/agents/agent-form.tsx:364-366 | the filter verdict of each position is that of its file's name |
| Files.KeptStep | src/components/agents/agent-form.tsx:364-373 | walking one more file appends exactly what that file contributes |
| Files.KeptInOrder | src/components/agents/agent-form.tsx:364-373 | the appended list holds, in input order, the attachment of every accepted file whose upload resolved, and nothing else |
| Files.BatchExample | src/components/agents/agent-form.tsx:360-377 | the batch a.pdf, b.exe, c.docx with all uploads resolving keeps the records of a.pdf and c.docx |
| Files.RemoveAtSpec | src/components/agents/agent-form.tsx:539-541 | removal takes out exactly position `index` and keeps the rest in order; an out-of-range index changes nothing |
| Files.RemoveExample | src/components/agents/agent-form/handlers.ts:123-128 | removing position 1 of [x, y, z] leaves [x, z] |
| Validation.Rule | src/hooks/useAgentFormValidation.ts:33-40 | a rule returns "" or its field's own message |
| Validation.RuleMeaning | src/hooks/useAgentFormValidation.ts:33-40 | the name fails exactly when white space only; the other five exactly when "" |
| Validation.ErrorsFor | src/hooks/useAgentFormValidation.ts:59-71 | the error map holds exactly the failing fields, each with its message |
| Validation.ErrorsForUnique | src/hooks/useAgentFormValidation.ts:59-71 | any map listing exactly the failing fields with their messages is that map, and it is empty iff nothing fails |
| Validation.CollectErrors | src/hooks/useAgentFormValidation.ts:60-69 | the `forEach` over the rule table collects exactly the error map, and `isValid` says whether it is empty |
| Validation.FormValidation.ValidateField | src/hooks/useAgentFormValidation.ts:42-57 | untouched: valid, errors unchanged; touched: `errors[field]` set to the rule's result, other entries kept, valid iff it is "" |
| Validation.FormValidation.ValidateForm | src/hooks/useAgentFormValidation.ts:59-81 | errors replaced by exactly the failing fields; valid iff none fail; all six fields touched whatever the outcome |
| Validation.FormValidation.MarkTouched | src/hooks/useAgentFormValidation.ts:83-86 | only `field` is added to touched; the error entry is refreshed only when the field was touched before the call |
| FormState.SeedWithoutData | src/components/agents/agent-form.tsx:183-204 | mounted without `initialData`: all six required fields missing with their messages, a badge of 6, latency 0.5, speed 110, switches off |
| FormState.SeedFromCompleteData | src/components/agents/agent-form.tsx:183-204 | mounted with the six required values supplied and a non-blank name: no errors, no badge, and those values unchanged |
| FormState.GetValidationErrorsSpec | src/components/agents/agent-form.tsx:436-445 | the name is a key iff white space only, each other field iff exactly ""; no other keys; each key carries its `REQUIRED_FIELDS` message; the map is empty iff nothing is missing |
| FormState.InlineMatchesHook | src/components/agents/agent-form.tsx:436-445 | the component's inline check and the hook's rule table give the same error map |
| FormState.CountEmpty | src/components/agents/agent-form.tsx:333-335 | the filter's count is at most the number of values |
| FormState.BadgeIsSum | src/components/agents/agent-form.tsx:333-335 | `basicSettingsMissing` counts each of the six values that is "" once |
| FormState.BadgeBounds | src/components/agents/agent-form.tsx:333-335 | the badge is between 0 and 6; 0 iff none of the six is "", 6 iff all are; 0 whenever the error map is empty |
| FormState.BadgeOverlooksBlankName | src/components/agents/agent-form.tsx:333-335 | a blank non-empty name with the rest filled gives badge 0 and an error map holding only the name |
| FormState.DirtyIffDiffers | src/components/agents/agent-form.tsx:282-303 | no baseline: not dirty; otherwise dirty iff the snapshot differs from the baseline |
| FormState.Capture | src/components/agents/agent-form.tsx:275-280 | after the effect a baseline exists, and an existing one is kept |
| FormState.CaptureOnce | src/components/agents/agent-form.tsx:275-303 | captures after the first have no effect; right after the first the form is clean; then dirty iff the snapshot changed |
| FormState.SnapshotPermutationInvariant | src/components/agents/agent-form.tsx:239-256 | reordering the attachments leaves the snapshot unchanged |
| FormState.TrailingSpaceNotDirty | src/components/agents/agent-form.tsx:239-303 | white space appended to the name leaves the snapshot and the dirty state unchanged, yet changes the payload |
| FormState.SortSeparable | src/components/agents/agent-form.tsx:255 | sorting keeps ids non-empty and comma-free |
| FormState.AttachmentKeyFaithful | src/components/agents/agent-form.tsx:255 | with non-empty, comma-free ids, two lists have the same key iff they hold the same ids |
| FormState.AttachmentKeyCollisions | src/components/agents/agent-form.tsx:255 | one id "a,b" has the key of the ids "a" and "b"; one empty id has the key of no attachments |
| FormState.PayloadAgreesWithSnapshot | src/components/agents/agent-form.tsx:380-398 | equal payloads give equal snapshots; field by field, the snapshot is the payload with the four text fields trimmed and the ids sorted and joined |
| Handlers.OfferedMembers | src/components/agents/agent-form/handlers.ts:112-117 | a file is handed to `uploadFile` exactly when it is in the batch and passes the filter |
| Handlers.OfferedStep | src/components/agents/agent-form/handlers.ts:112-117 | walking one more file hands it over exactly when it passes the filter |
| Handlers.Session.SaveAgent | src/components/agents/agent-form/handlers.ts:30-68 | `saving` raised for the request and false at the end; create POSTs and stores the id; edit with an id PUTs; edit without one sends nothing; `onSaved` after every non-throwing branch, never after a failure; the toasts of each case |
| Handlers.Session.StartTestCall | src/components/agents/agent-form/handlers.ts:70-102 | exactly one request, unchecked inputs, phone as `phoneNumber`, `calling` raised during it and false at the end; the answer's toast, or the interceptor's |
| Handlers.Session.UploadFiles | src/components/agents/agent-form/handlers.ts:104-121 | nothing for a missing list; otherwise exactly the accepted files handed over in order and exactly their resolved uploads appended in order |
| Handlers.Session.UploadOne | src/components/agents/agent-form/handlers.ts:113-119 | one pass: a rejected file is skipped; an accepted one is handed over and its resolved upload appended |
| Handlers.Session.RemoveAttachment | src/components/agents/agent-form/handlers.ts:123-128 | the list minus exactly position `index`, in order; unchanged out of range |
| AgentForm.CallToastsAgree | src/components/agents/agent-form.tsx:509-533 | the component's toast after a test call has the success icon exactly on `data.success`, never after a throw; it equals `startTestCall`'s toast on success and differs in title when the call did not start |
| AgentForm.SaveOutcomes | src/components/agents/agent-form.tsx:400-433 | one request exactly when the mode or the id allows one, and one toast exactly then; the success toast exactly on success; a failure and edit mode keep the id; a successful create stores the returned id |
| AgentForm.CleanAtBaseline | src/components/agents/agent-form.tsx:414 | a baseline just taken from the current snapshot leaves the form clean |
| AgentForm.CallGuard | src/components/agents/agent-form.tsx:471-508 | after the id guard: a request exactly when the id is set and all four inputs are filled; exactly one toast, "must be saved" exactly when the id is unset, the call's own exactly when the request went out |
| AgentForm.StaleGuard | src/components/agents/agent-form.tsx:471-486 | with no id, a guard reading the id from before the save never calls; one reading the id a successful create left calls that id |
| AgentForm.BatchKeptIsKept | src/components/agents/agent-form.tsx:364-373 | walking the batch file by file keeps exactly what `Files.Kept` keeps of its outcomes |
| AgentForm.BatchStep | src/components/agents/agent-form.tsx:364-373 | walking one more file appends that file's attachments, requests and toasts |
| AgentForm.RejectedBatchIsSilent | src/components/agents/agent-form.tsx:364-366 | a batch where no file passes the filter sends nothing, shows nothing and appends nothing |
| AgentForm.Form.constructor | src/components/agents/agent-form.tsx:180-219 | mounting seeds the values, leaves the lists and the id empty, computes the errors of the seed, captures the first snapshot, and the form is clean |
| AgentForm.Form.CaptureBaseline | src/components/agents/agent-form.tsx:276-280 | the baseline effect stores the snapshot only while none exists |
| AgentForm.Form.Edit | src/components/agents/agent-form.tsx:276-303 | after a value change and both effects: the errors follow the new values, the baseline stays, and the form is dirty iff the new snapshot differs from it |
| AgentForm.Form.Touch | src/components/agents/agent-form.tsx:594-598 | after a blur the field is touched, and its message shows exactly when it is missing |
| AgentForm.Form.SetTestInputs | src/components/agents/agent-form.tsx:211-214 | the four test-call inputs take the typed values |
| AgentForm.Form.ValidateForm | src/components/agents/agent-form.tsx:452-468 | errors recomputed; true iff no field is missing; true leaves touched unchanged; false touches all six, so each missing field shows its message |
| AgentForm.Form.HandleSave | src/components/agents/agent-form.tsx:379-434 | the mode's request sent with `saving` raised, `saving` false at the end; the toast; the id a POST returns; on success a new baseline and a clean form, on failure the old baseline and id |
| AgentForm.Form.PostAgentRequest | src/components/agents/agent-form.tsx:402-414 | the POST, then the returned id, the "created" toast and a new baseline; a throw leaves only the interceptor's toast |
| AgentForm.Form.PutAgentRequest | src/components/agents/agent-form.tsx:415-427 | the PUT to the id, then the "updated" toast and a new baseline; a throw leaves only the interceptor's toast; a mounted edit form never reaches it |
| AgentForm.Form.ClickSave | src/components/agents/agent-form.tsx:568-569 | a missing field: nothing sent, all six touched, id and baseline unchanged; otherwise the save runs, with its requests, toasts, id, and on success a new baseline and a clean form; an edit form without an id sends and shows nothing |
| AgentForm.Form.HandleTestCall | src/components/agents/agent-form.tsx:470-537 | as written: the chained save when there was no id, with its new baseline and a clean form on success; then the guard on the id read at entry, with its requests and toasts; an edit form without an id sends nothing and shows "must be saved" |
| AgentForm.Form.HandleTestCallRechecked | src/components/agents/agent-form.tsx:470-537 | corrected: the same, the baseline included, with the guard reading the id the save left, so a saved form places the call to its new id |
| AgentForm.Form.StartCall | src/components/agents/agent-form.tsx:488-536 | an unfilled input: the "fill all fields" toast and no request; otherwise one request with `calling` raised, its toast, `calling` false at the end |
| AgentForm.Form.HandleFiles | src/components/agents/agent-form.tsx:360-377 | nothing for a missing list; otherwise exactly the resolved uploads of the accepted files appended in order, their upload requests, their interceptor toasts; the baseline stays |
| AgentForm.Form.UploadBatch | src/components/agents/agent-form.tsx:364-375 | the loop over the files appends exactly the batch's attachments, requests and toasts, and keeps the baseline |
| AgentForm.Form.UploadOne | src/components/agents/agent-form.tsx:365-373 | one pass: a rejected file is skipped; an accepted one is uploaded, and its record appended when the upload resolves |
| AgentForm.Form.RemoveFile | src/components/agents/agent-form.tsx:539-541 | the list minus exactly position `index`, in order; unchanged out of range; the baseline stays |
| AgentForm.UnsavedTestCallAsWritten | src/components/agents/agent-form.tsx:470-486 | first click on an unsaved, filled form whose save returns "agent-1": one POST, the "created" toast, then "must be saved", no call |
| AgentForm.EditFormNeverSends | src/components/agents/agent-form.tsx:400-486 | an edit form, whatever its initial data and answers: Save then "Start Test Call" send nothing, leave the id unset, and show only "must be saved" |
| AgentForm.UnsavedTestCallRechecked | src/components/agents/agent-form.tsx:470-537 | the same click with the guard re-reading the id: the POST, then the test call to "agent-1" with the four inputs |

## Left out

- JSX rendering, the presentational sections, drag and drop, `formatFileSize` and
  `CollapsibleSection`: layout only, no state logic.
- `useReferenceData`: a fetch of reference lists with a mounted flag; I/O plumbing.
- The navigation guard (the `window.navigation` listener and its confirm dialog,
  agent-form.tsx:308-330): host interception. The model states only the `isDirty` value it
  reads (`AgentForm.Form.Dirty`).
- Toast timers, positions and the confirm buttons of SweetAlert; `console.error`.
- The interceptor's `typeof window !== "undefined"` test: the model is the browser, where the
  toast is always shown.
- Latency is a JavaScript float. It is an exact `real` here, compared only for equality, so
  NaN is not modelled.
- `sort` compares UTF-16 code units; here it compares characters. `toLowerCase` lowers ASCII
  letters only. `trim` strips the ASCII and Unicode white space listed in `JsText.IsSpace`.
- Concurrency: two saves, or an upload running beside a save, are not interleaved. Each
  operation runs to completion, with its network answers given up front.
- src/types/attachment.ts is not part of this model. The attachment record follows what the
  code reads of it: id, file name, size, MIME type.
- AgentForm.Form.HandleFiles: does not state the uploader's `error` field after a batch. It is
  that of the last accepted file's upload and is never read by the form.
- AgentForm.Form.HandleTestCall: logs the interceptor's toast as `Intercepted(error)`, not as
  its rendered title. `Api.Displayed` gives the rendered toast.
- Every Form method starts between events (`Valid`): no request in flight and the baseline
  captured. The sync and baseline effects run before the next event.
- `Valid` does not require an edit form to be without an id. The Form methods therefore also
  cover an edit form holding an id, which the component as mounted never reaches; what a
  mounted edit form does is stated by `EditFormNeverSends` and the `mode.Edit?` clauses.

## Findings

| source | as written | input that shows it | evidently intended | confidence | as-written member | corrected member |
|---|---|---|---|---|---|---|
| src/components/agents/agent-form.tsx:470-486 | after `await handleSave()` the guard `if (!agentId)` reads the `agentId` the handler closed over at entry, which is still `null` | a create-mode form with no id, all four test inputs filled, and a save that returns id "agent-1": the form creates the agent, shows "Agent must be saved before test call." and places no call | the guard reads the id the save just stored and the call goes to "agent-1" | high, not executed | AgentForm.UnsavedTestCallAsWritten | AgentForm.Form.HandleTestCallRechecked |
