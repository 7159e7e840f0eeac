/**
 * The stateful part of src/components/agents/agent-form.tsx: the `AgentForm` component as an
 * object whose fields are its state hooks and refs, and whose methods are its event handlers
 * and the two effects that follow a change of their dependencies. The network answers and
 * the upload oracle are parameters; the requests sent and the toasts shown are logged.
 */
module AgentForm {
  import opened Maybe
  import opened Api
  import opened AgentTypes
  import opened Upload
  import opened Files
  import opened Validation
  import opened FormState
  import opened Handlers

  const MustSaveMessage := "Agent must be saved before test call."
  const FillFieldsMessage := "Please fill all test call fields."
  const NotStartedMessage := "Test call failed to start."

  /** The four test-call inputs. */
  datatype TestInputs = TestInputs(firstName: string, lastName: string, gender: string, phone: string)

  /** `!testFirstName || !testLastName || !testPhone || !testGender`, negated. */
  predicate TestInputsComplete(t: TestInputs)
  {
    t.firstName != "" && t.lastName != "" && t.phone != "" && t.gender != ""
  }

  /** The body of `POST /agents/{id}/test-call`: the phone travels as `phoneNumber`. */
  function TestCallBodyOf(t: TestInputs): TestCallBody
  {
    TestCallBody(t.firstName, t.lastName, t.gender, t.phone)
  }

  /** The toast after the test-call request settled: the component's own titles for an
      answer, the interceptor's for a throw. */
  function CallToast(reply: Result<TestCallData>): Notice
  {
    match reply
    case Ok(data) =>
      if data.success then Shown(Toast(SuccessIcon, InitiatedMessage(data.callId)))
      else Shown(Toast(ErrorIcon, NotStartedMessage))
    case Err(e) => Intercepted(e)
  }

  /** The component's toast after the test call and the one of the stand-alone
      `startTestCall`: the success icon exactly on `data.success` and never after a throw; the
      same toast on success; different titles for a call that did not start. */
  lemma CallToastsAgree(reply: Result<TestCallData>)
    ensures Displayed(CallToast(reply)).icon == SuccessIcon <==> reply.Ok? && reply.value.success
    ensures reply.Ok? ==> Displayed(CallToast(reply)).icon == TestCallToast(reply.value).icon
    ensures reply.Ok? && reply.value.success ==> CallToast(reply) == Shown(TestCallToast(reply.value))
    ensures reply.Ok? && !reply.value.success ==> Displayed(CallToast(reply)).title != TestCallToast(reply.value).title
  {
    if reply.Ok? && !reply.value.success {
      assert |NotStartedMessage| != |CallFailedMessage|;
    }
  }

  // ---------------------------------------------------------------- handleSave

  /** The request `handleSave` sends: a POST in create mode, a PUT to the id in edit mode when
      there is one, nothing otherwise. */
  function SaveRequest(mode: Mode, id: Option<string>, payload: AgentPayload): Option<Request>
  {
    if mode == Create then Some(PostAgent(payload))
    else if HasId(id) then Some(PutAgent(id.value, payload))
    else None
  }

  /** What `handleSave` adds to the log of requests, `saving` being raised. */
  function SaveSent(mode: Mode, id: Option<string>, payload: AgentPayload, calling: bool): seq<Sent>
  {
    match SaveRequest(mode, id, payload)
    case None => []
    case Some(r) => [Sent(r, true, calling)]
  }

  /** The toasts of `handleSave`: none when nothing was sent, the success toast of the mode
      when the request succeeded, the interceptor's when it threw. */
  function SaveToasts(mode: Mode, id: Option<string>, reply: Result<string>): seq<Notice>
  {
    if mode == Edit && !HasId(id) then []
    else
      match reply
      case Err(e) => [Intercepted(e)]
      case Ok(_) => [Shown(Toast(SuccessIcon, if mode == Create then CreatedMessage else UpdatedMessage))]
  }

  /** `agentId` after `handleSave`: the id a successful POST returned, unchanged otherwise. */
  function SavedId(mode: Mode, id: Option<string>, reply: Result<string>): Option<string>
  {
    if mode == Create && reply.Ok? then Some(reply.value) else id
  }

  /** A request went out and settled without a throw: the baseline is reset. */
  predicate SaveSucceeded(mode: Mode, id: Option<string>, reply: Result<string>)
  {
    (mode == Create || HasId(id)) && reply.Ok?
  }

  /** What `handleSave` does with each combination: exactly one request when the mode or the
      id allows one, a toast exactly then, the success toast exactly on success; a failed save
      keeps the id, and only a successful create changes it. */
  lemma SaveOutcomes(mode: Mode, id: Option<string>, payload: AgentPayload, reply: Result<string>, calling: bool)
    ensures |SaveSent(mode, id, payload, calling)| == (if mode == Create || HasId(id) then 1 else 0)
    ensures |SaveToasts(mode, id, reply)| == |SaveSent(mode, id, payload, calling)|
    ensures SaveSucceeded(mode, id, reply) <==> |SaveToasts(mode, id, reply)| == 1 && SaveToasts(mode, id, reply)[0].Shown?
    ensures reply.Err? ==> SavedId(mode, id, reply) == id
    ensures mode == Edit ==> SavedId(mode, id, reply) == id
    ensures mode == Create && reply.Ok? ==> SavedId(mode, id, reply) == Some(reply.value)
  {
  }

  /** A baseline just taken from the current snapshot leaves the form clean. */
  lemma CleanAtBaseline(s: Snapshot)
    ensures !IsDirty(Some(s), s)
  {
    DirtyIffDiffers(Some(s), s);
  }

  // ---------------------------------------------------------------- handleTestCall

  /** The save `handleTestCall` runs first: the one of `handleSave`, unless the form already
      has an id. */
  function ChainedSaveSent(mode: Mode, id: Option<string>, payload: AgentPayload): seq<Sent>
  {
    if HasId(id) then [] else SaveSent(mode, id, payload, false)
  }

  function ChainedSaveToasts(mode: Mode, id: Option<string>, reply: Result<string>): seq<Notice>
  {
    if HasId(id) then [] else SaveToasts(mode, id, reply)
  }

  /** What follows a guard that reads `id`: the test-call request, to that id, when it is set
      and all four inputs are filled. */
  function CallSent(id: Option<string>, t: TestInputs): seq<Sent>
  {
    if HasId(id) && TestInputsComplete(t) then [Sent(PostTestCall(id.value, TestCallBodyOf(t)), false, true)] else []
  }

  /** The toast after a guard that reads `id`: "must be saved", "fill all fields", or the
      call's own. */
  function CallNotices(id: Option<string>, t: TestInputs, reply: Result<TestCallData>): seq<Notice>
  {
    if !HasId(id) then [Shown(Toast(ErrorIcon, MustSaveMessage))]
    else if !TestInputsComplete(t) then [Shown(Toast(ErrorIcon, FillFieldsMessage))]
    else [CallToast(reply)]
  }

  /** After the guard: at most one request, exactly when the id is set and the inputs are
      filled; exactly one toast, the "must be saved" one exactly when the id is unset, and the
      call's own exactly when the request went out. */
  lemma CallGuard(id: Option<string>, t: TestInputs, reply: Result<TestCallData>)
    ensures |CallSent(id, t)| <= 1 && |CallNotices(id, t, reply)| == 1
    ensures |CallSent(id, t)| == 1 <==> HasId(id) && TestInputsComplete(t)
    ensures CallNotices(id, t, reply)[0] == Shown(Toast(ErrorIcon, MustSaveMessage)) <==> !HasId(id)
    ensures CallNotices(id, t, reply)[0] == CallToast(reply) <==> |CallSent(id, t)| == 1
  {
    assert MustSaveMessage != FillFieldsMessage by {
      assert MustSaveMessage[0] != FillFieldsMessage[0];
    }
    assert MustSaveMessage != NotStartedMessage by {
      assert MustSaveMessage[0] != NotStartedMessage[0];
    }
  }

  /** When the form has no id, a guard that reads the id from before the save never places
      the call, while one that reads the id a successful create left places it, to the new
      id. */
  lemma StaleGuard(id: Option<string>, t: TestInputs, reply: Result<TestCallData>, newId: string)
    requires !HasId(id) && TestInputsComplete(t) && newId != ""
    ensures CallSent(id, t) == [] && CallNotices(id, t, reply) == [Shown(Toast(ErrorIcon, MustSaveMessage))]
    ensures CallSent(SavedId(Create, id, Ok(newId)), t) == [Sent(PostTestCall(newId, TestCallBodyOf(t)), false, true)]
    ensures CallNotices(SavedId(Create, id, Ok(newId)), t, reply) == [CallToast(reply)]
  {
  }

  // ---------------------------------------------------------------- handleFiles

  /** How each upload of the batch would settle. */
  function Outcomes(files: seq<File>, nets: seq<UploadNet>): seq<Outcome>
    requires |nets| == |files|
  {
    seq(|files|, i requires 0 <= i < |files| => UploadOutcome(files[i], nets[i]))
  }

  /** The upload requests one file of the batch causes: none when the filter rejects it. */
  function FileSteps(file: File, net: UploadNet, accepted: seq<string>): seq<UploadSent>
  {
    if Accepts(accepted, file.name) then Tagged(Steps(file, net), true) else []
  }

  /** The toasts one file of the batch causes: the interceptor's when an API step of its upload
      threw; none for a rejected file, a resolved upload or a failed transfer. */
  function FileToasts(file: File, net: UploadNet, accepted: seq<string>): seq<Notice>
  {
    var o := UploadOutcome(file, net);
    if Accepts(accepted, file.name) && o.Failed? && o.failure.ApiFailed? then [Intercepted(o.failure.error)]
    else []
  }

  function BatchSteps(files: seq<File>, nets: seq<UploadNet>, accepted: seq<string>): seq<UploadSent>
    requires |nets| == |files|
  {
    if files == [] then []
    else
      var n := |files| - 1;
      BatchSteps(files[..n], nets[..n], accepted) + FileSteps(files[n], nets[n], accepted)
  }

  function BatchToasts(files: seq<File>, nets: seq<UploadNet>, accepted: seq<string>): seq<Notice>
    requires |nets| == |files|
  {
    if files == [] then []
    else
      var n := |files| - 1;
      BatchToasts(files[..n], nets[..n], accepted) + FileToasts(files[n], nets[n], accepted)
  }

  /** The attachments one file of the batch adds: the resolved upload of an accepted file. */
  function FileKept(file: File, net: UploadNet, accepted: seq<string>): seq<Attachment>
  {
    KeptOne(file, UploadOutcome(file, net), accepted)
  }

  function BatchKept(files: seq<File>, nets: seq<UploadNet>, accepted: seq<string>): seq<Attachment>
    requires |nets| == |files|
  {
    if files == [] then []
    else
      var n := |files| - 1;
      BatchKept(files[..n], nets[..n], accepted) + FileKept(files[n], nets[n], accepted)
  }

  /** Walking the batch file by file keeps exactly what `Kept` keeps of the batch's outcomes. */
  lemma {:induction false} BatchKeptIsKept(files: seq<File>, nets: seq<UploadNet>, accepted: seq<string>)
    requires |nets| == |files|
    ensures BatchKept(files, nets, accepted) == Kept(files, Outcomes(files, nets), accepted)
  {
    if files != [] {
      var n := |files| - 1;
      var os := Outcomes(files, nets);
      BatchKeptIsKept(files[..n], nets[..n], accepted);
      assert Outcomes(files[..n], nets[..n]) == os[..n];
      KeptStep(files, os, accepted, n);
      assert files[..n + 1] == files && os[..n + 1] == os;
    }
  }

  /** One more file walked appends that file's attachments, requests and toasts. */
  lemma BatchStep(files: seq<File>, nets: seq<UploadNet>, accepted: seq<string>, i: int)
    requires |nets| == |files|
    requires 0 <= i < |files|
    ensures BatchKept(files[..i + 1], nets[..i + 1], accepted)
            == BatchKept(files[..i], nets[..i], accepted) + FileKept(files[i], nets[i], accepted)
    ensures BatchSteps(files[..i + 1], nets[..i + 1], accepted)
            == BatchSteps(files[..i], nets[..i], accepted) + FileSteps(files[i], nets[i], accepted)
    ensures BatchToasts(files[..i + 1], nets[..i + 1], accepted)
            == BatchToasts(files[..i], nets[..i], accepted) + FileToasts(files[i], nets[i], accepted)
  {
    assert files[..i + 1][..i] == files[..i];
    assert nets[..i + 1][..i] == nets[..i];
  }

  /** A batch in which no file passes the filter sends nothing, shows nothing and adds no
      attachment. */
  lemma {:induction false} RejectedBatchIsSilent(files: seq<File>, nets: seq<UploadNet>, accepted: seq<string>)
    requires |nets| == |files|
    requires forall i :: 0 <= i < |files| ==> !Accepts(accepted, files[i].name)
    ensures BatchSteps(files, nets, accepted) == []
    ensures BatchToasts(files, nets, accepted) == []
    ensures Kept(files, Outcomes(files, nets), accepted) == []
  {
    if files != [] {
      var n := |files| - 1;
      var os := Outcomes(files, nets);
      RejectedBatchIsSilent(files[..n], nets[..n], accepted);
      assert Outcomes(files[..n], nets[..n]) == os[..n];
      KeptStep(files, os, accepted, n);
      assert files[..n + 1] == files && os[..n + 1] == os;
    }
  }

  /** Regrouping a log that grew by two appends. */
  lemma AppendAssoc<T>(a: seq<T>, b: seq<T>, c: seq<T>)
    ensures (a + b) + c == a + (b + c)
  {
  }

  // ---------------------------------------------------------------- the component

  /** The state of one mounted `AgentForm`. */
  class Form {
    const mode: Mode
    /** The `useUpload` hook of the component. */
    const uploader: Uploader
    var values: FormValues
    var attachments: seq<Attachment>
    var test: TestInputs
    var agentId: Option<string>
    var saving: bool
    var calling: bool
    /** `initialSnapshotRef.current` */
    var baseline: Option<Snapshot>
    var errors: map<Field, string>
    var touched: set<Field>
    var sent: seq<Sent>
    var toasts: seq<Notice>

    /** Between two events: no request is in flight and the baseline has been captured. */
    ghost predicate Valid()
      reads this`saving, this`calling, this`baseline, uploader
    {
      !saving && !calling && !uploader.uploading && baseline.Some?
    }

    /** The error map is that of the current values, as the sync effect leaves it. */
    ghost predicate Synced()
      reads this`values, this`errors
    {
      errors == GetValidationErrors(values)
    }

    function Current(): Snapshot
      reads this`values, this`attachments
    {
      GetSnapshot(values, attachments)
    }

    predicate Dirty()
      reads this`values, this`attachments, this`baseline
    {
      IsDirty(baseline, Current())
    }

    /** `errors[f] && touched[f]`: the message under field `f` is on screen. */
    predicate ErrorShown(f: Field)
      reads this`errors, this`touched
    {
      Validation.Shown(errors, touched, f)
    }

    function FormPayload(): AgentPayload
      reads this`values, this`attachments
    {
      Payload(values, attachments)
    }

    /** Mounting: the state hooks take their first values, then both effects run once, so the
        errors are those of the seeded values and the baseline is the first snapshot. */
    constructor (mode: Mode, init: InitialData)
      ensures Valid() && Synced() && this.mode == mode
      ensures values == Seed(init) && attachments == [] && test == TestInputs("", "", "", "")
      ensures agentId == None && touched == {} && sent == [] && toasts == []
      ensures fresh(uploader) && uploader.sent == [] && uploader.error == None
      ensures baseline == Some(GetSnapshot(Seed(init), [])) && !Dirty()
    {
      this.mode := mode;
      uploader := new Uploader();
      values := Seed(init);
      attachments := [];
      test := TestInputs("", "", "", "");
      agentId := None;
      saving, calling := false, false;
      touched := {};
      sent, toasts := [], [];
      errors := GetValidationErrors(Seed(init));
      baseline := Capture(None, GetSnapshot(Seed(init), []));
      new;
      DirtyIffDiffers(baseline, Current());
    }

    /** The baseline effect, run whenever a snapshot input changed. */
    method CaptureBaseline()
      modifies this`baseline
      ensures baseline == Capture(old(baseline), Current())
    {
      baseline := Capture(baseline, Current());
    }

    /** A change of the form's values (typing, a select, a slider, a switch), followed by both
        effects: the errors follow the new values, the baseline stays, and the form is dirty
        exactly when the new snapshot differs from it. */
    method Edit(v: FormValues)
      requires Valid()
      modifies this`values, this`errors, this`baseline
      ensures Valid()
      ensures values == v && Synced() && baseline == old(baseline)
      ensures Dirty() <==> GetSnapshot(v, attachments) != baseline.value
    {
      values := v;
      errors := GetValidationErrors(values);
      CaptureBaseline();
      DirtyIffDiffers(baseline, Current());
    }

    /** An input's `onBlur`, or a select's change: the field becomes touched. */
    method Touch(f: Field)
      requires Synced()
      modifies this`touched
      ensures touched == old(touched) + {f}
      ensures ErrorShown(f) <==> Missing(values, f)
    {
      touched := touched + {f};
      GetValidationErrorsSpec(values);
    }

    method SetTestInputs(t: TestInputs)
      modifies this`test
      ensures test == t
    {
      test := t;
    }

    /** `validateForm`: recomputes the errors; when any field is missing, every required field
        becomes touched, so each missing one shows its message, and the answer is false. */
    method ValidateForm() returns (ok: bool)
      modifies this`errors, this`touched
      ensures Synced()
      ensures ok <==> forall f :: !Missing(values, f)
      ensures ok ==> touched == old(touched)
      ensures !ok ==> touched == AllFields && forall f :: ErrorShown(f) <==> Missing(values, f)
    {
      errors := GetValidationErrors(values);
      GetValidationErrorsSpec(values);
      if errors != map[] {
        touched := AllFields;
        ok := false;
      } else {
        ok := true;
      }
    }

    /** `handleSave`: the request of the mode sent with `saving` raised, its toast, the id a
        POST returns, and on success a new baseline, so the form is clean; `saving` ends
        false. `reply` answers the request, if one is sent. */
    method HandleSave(reply: Result<string>)
      requires Valid()
      modifies this`agentId, this`saving, this`baseline, this`sent, this`toasts
      ensures Valid()
      ensures sent == old(sent) + SaveSent(mode, old(agentId), FormPayload(), calling)
      ensures toasts == old(toasts) + SaveToasts(mode, old(agentId), reply)
      ensures agentId == SavedId(mode, old(agentId), reply)
      ensures baseline == if SaveSucceeded(mode, old(agentId), reply) then Some(Current()) else old(baseline)
      ensures SaveSucceeded(mode, old(agentId), reply) ==> !Dirty()
      ensures mode.Edit? ==> agentId == old(agentId)
    {
      var payload := FormPayload();
      saving := true;
      if mode == Create {
        PostAgentRequest(payload, reply);
      } else if HasId(agentId) {
        PutAgentRequest(agentId.value, payload, reply);
      }
      saving := false;
      if SaveSucceeded(mode, old(agentId), reply) {
        CleanAtBaseline(Current());
      }
    }

    /** The create branch of `handleSave`: the POST, then the returned id, the success toast
        and a new baseline; a throw leaves only the interceptor's toast. */
    method PostAgentRequest(payload: AgentPayload, reply: Result<string>)
      modifies this`agentId, this`baseline, this`sent, this`toasts
      ensures sent == old(sent) + [Sent(PostAgent(payload), saving, calling)]
      ensures reply.Err? ==>
                toasts == old(toasts) + [Intercepted(reply.error)]
                && agentId == old(agentId) && baseline == old(baseline)
      ensures reply.Ok? ==>
                toasts == old(toasts) + [Shown(Toast(SuccessIcon, CreatedMessage))]
                && agentId == Some(reply.value) && baseline == Some(Current())
    {
      sent := sent + [Sent(PostAgent(payload), saving, calling)];
      match reply {
        case Err(e) =>
          toasts := toasts + [Intercepted(e)];
        case Ok(newId) =>
          agentId := Some(newId);
          toasts := toasts + [Shown(Toast(SuccessIcon, CreatedMessage))];
          baseline := Some(Current());
      }
    }

    /** The edit branch of `handleSave`: the PUT to `id`, then the success toast and a new
        baseline; a throw leaves only the interceptor's toast. */
    method PutAgentRequest(id: string, payload: AgentPayload, reply: Result<string>)
      modifies this`baseline, this`sent, this`toasts
      ensures sent == old(sent) + [Sent(PutAgent(id, payload), saving, calling)]
      ensures reply.Err? ==> toasts == old(toasts) + [Intercepted(reply.error)] && baseline == old(baseline)
      ensures reply.Ok? ==> toasts == old(toasts) + [Shown(Toast(SuccessIcon, UpdatedMessage))] && baseline == Some(Current())
    {
      sent := sent + [Sent(PutAgent(id, payload), saving, calling)];
      match reply {
        case Err(e) =>
          toasts := toasts + [Intercepted(e)];
        case Ok(_) =>
          toasts := toasts + [Shown(Toast(SuccessIcon, UpdatedMessage))];
          baseline := Some(Current());
      }
    }

    /** The Save button: `if (!validateForm()) return; handleSave();`. With a field missing
        nothing is sent and every required field is touched; otherwise the save runs. */
    method ClickSave(reply: Result<string>)
      requires Valid()
      modifies this`errors, this`touched, this`agentId, this`saving, this`baseline, this`sent, this`toasts
      ensures Valid() && Synced()
      ensures (exists f :: Missing(values, f)) ==>
                touched == AllFields && sent == old(sent) && toasts == old(toasts)
                && agentId == old(agentId) && baseline == old(baseline)
      ensures (forall f :: !Missing(values, f)) ==>
                touched == old(touched)
                && sent == old(sent) + SaveSent(mode, old(agentId), FormPayload(), false)
                && toasts == old(toasts) + SaveToasts(mode, old(agentId), reply)
                && agentId == SavedId(mode, old(agentId), reply)
                && baseline == (if SaveSucceeded(mode, old(agentId), reply) then Some(Current()) else old(baseline))
                && (SaveSucceeded(mode, old(agentId), reply) ==> !Dirty())
      ensures mode.Edit? ==> agentId == old(agentId)
      ensures mode.Edit? && !HasId(old(agentId)) ==> sent == old(sent) && toasts == old(toasts)
    {
      var ok := ValidateForm();
      if !ok {
        return;
      }
      HandleSave(reply);
    }

    /** `handleTestCall` as written. The guard after the chained save reads `agentId` as it
        was when the handler started, so an unsaved form always ends with the "must be saved"
        toast, even when the save it just ran returned an id. With an id the inputs are
        checked, and the request goes to that id while `calling` is raised. */
    method HandleTestCall(saveReply: Result<string>, callReply: Result<TestCallData>)
      requires Valid()
      modifies this`agentId, this`saving, this`calling, this`baseline, this`sent, this`toasts
      ensures Valid()
      ensures agentId == if HasId(old(agentId)) then old(agentId) else SavedId(mode, old(agentId), saveReply)
      ensures HasId(old(agentId)) ==> baseline == old(baseline)
      ensures !HasId(old(agentId)) ==>
                baseline == (if SaveSucceeded(mode, old(agentId), saveReply) then Some(Current()) else old(baseline))
                && (SaveSucceeded(mode, old(agentId), saveReply) ==> !Dirty())
      ensures mode.Edit? ==> agentId == old(agentId)
      ensures mode.Edit? && !HasId(old(agentId)) ==>
                sent == old(sent) && toasts == old(toasts) + [Shown(Toast(ErrorIcon, MustSaveMessage))]
      ensures sent == old(sent) + ChainedSaveSent(mode, old(agentId), FormPayload()) + CallSent(old(agentId), test)
      ensures toasts == old(toasts) + ChainedSaveToasts(mode, old(agentId), saveReply) + CallNotices(old(agentId), test, callReply)
    {
      var entryId := agentId;
      if !HasId(entryId) {
        HandleSave(saveReply);
        if !HasId(entryId) {
          toasts := toasts + [Shown(Toast(ErrorIcon, MustSaveMessage))];
          return;
        }
      }
      StartCall(entryId.value, callReply);
    }

    /** `handleTestCall` with the guard after the chained save reading the id the save left:
        the call goes to the id the form has once it is saved. */
    method HandleTestCallRechecked(saveReply: Result<string>, callReply: Result<TestCallData>)
      requires Valid()
      modifies this`agentId, this`saving, this`calling, this`baseline, this`sent, this`toasts
      ensures Valid()
      ensures agentId == if HasId(old(agentId)) then old(agentId) else SavedId(mode, old(agentId), saveReply)
      ensures HasId(old(agentId)) ==> baseline == old(baseline)
      ensures !HasId(old(agentId)) ==>
                baseline == (if SaveSucceeded(mode, old(agentId), saveReply) then Some(Current()) else old(baseline))
                && (SaveSucceeded(mode, old(agentId), saveReply) ==> !Dirty())
      ensures mode.Edit? ==> agentId == old(agentId)
      ensures sent == old(sent) + ChainedSaveSent(mode, old(agentId), FormPayload()) + CallSent(agentId, test)
      ensures toasts == old(toasts) + ChainedSaveToasts(mode, old(agentId), saveReply) + CallNotices(agentId, test, callReply)
    {
      if !HasId(agentId) {
        HandleSave(saveReply);
        if !HasId(agentId) {
          toasts := toasts + [Shown(Toast(ErrorIcon, MustSaveMessage))];
          return;
        }
      }
      StartCall(agentId.value, callReply);
    }

    /** The part of `handleTestCall` after the id check: the inputs check, then the request to
        `id` with `calling` raised, its toast, and `calling` lowered. */
    method StartCall(id: string, callReply: Result<TestCallData>)
      requires Valid()
      modifies this`calling, this`sent, this`toasts
      ensures Valid()
      ensures !TestInputsComplete(test) ==>
                sent == old(sent) && toasts == old(toasts) + [Shown(Toast(ErrorIcon, FillFieldsMessage))]
      ensures TestInputsComplete(test) ==>
                sent == old(sent) + [Sent(PostTestCall(id, TestCallBodyOf(test)), false, true)]
                && toasts == old(toasts) + [CallToast(callReply)]
    {
      if !TestInputsComplete(test) {
        toasts := toasts + [Shown(Toast(ErrorIcon, FillFieldsMessage))];
        return;
      }
      calling := true;
      sent := sent + [Sent(PostTestCall(id, TestCallBodyOf(test)), saving, calling)];
      toasts := toasts + [CallToast(callReply)];
      calling := false;
    }

    /** `handleFiles`: nothing for a missing list; otherwise each file in order: a file the
        filter rejects is skipped, any other is uploaded, and a resolved upload is appended.
        `nets[i]` answers the upload of the `i`-th file. The baseline, already captured, stays. */
    method HandleFiles(files: Option<seq<File>>, nets: seq<UploadNet>)
      requires Valid()
      requires files.Some? ==> |nets| == |files.value|
      modifies this`attachments, this`toasts, this`baseline, uploader
      ensures Valid() && baseline == old(baseline)
      ensures files == None ==>
                attachments == old(attachments) && toasts == old(toasts) && uploader.sent == old(uploader.sent)
      ensures files.Some? ==> attachments == old(attachments) + Kept(files.value, Outcomes(files.value, nets), AcceptedTypes)
      ensures files.Some? ==> uploader.sent == old(uploader.sent) + BatchSteps(files.value, nets, AcceptedTypes)
      ensures files.Some? ==> toasts == old(toasts) + BatchToasts(files.value, nets, AcceptedTypes)
    {
      if files == None {
        return;
      }
      UploadBatch(files.value, nets, AcceptedTypes);
      BatchKeptIsKept(files.value, nets, AcceptedTypes);
    }

    /** The loop of `handleFiles` over a list that is there, with `accepted` as the filter. */
    method UploadBatch(fs: seq<File>, nets: seq<UploadNet>, accepted: seq<string>)
      requires Valid()
      requires |nets| == |fs|
      modifies this`attachments, this`toasts, this`baseline, uploader
      ensures Valid() && baseline == old(baseline)
      ensures attachments == old(attachments) + BatchKept(fs, nets, accepted)
      ensures uploader.sent == old(uploader.sent) + BatchSteps(fs, nets, accepted)
      ensures toasts == old(toasts) + BatchToasts(fs, nets, accepted)
    {
      var i := 0;
      while i < |fs|
        invariant 0 <= i <= |fs|
        invariant Valid() && baseline == old(baseline)
        invariant attachments == old(attachments) + BatchKept(fs[..i], nets[..i], accepted)
        invariant uploader.sent == old(uploader.sent) + BatchSteps(fs[..i], nets[..i], accepted)
        invariant toasts == old(toasts) + BatchToasts(fs[..i], nets[..i], accepted)
      {
        BatchStep(fs, nets, accepted, i);
        UploadOne(fs[i], nets[i], accepted);
        AppendAssoc(old(attachments), BatchKept(fs[..i], nets[..i], accepted), FileKept(fs[i], nets[i], accepted));
        AppendAssoc(old(uploader.sent), BatchSteps(fs[..i], nets[..i], accepted), FileSteps(fs[i], nets[i], accepted));
        AppendAssoc(old(toasts), BatchToasts(fs[..i], nets[..i], accepted), FileToasts(fs[i], nets[i], accepted));
        i := i + 1;
      }
      assert fs[..|fs|] == fs && nets[..|fs|] == nets;
    }

    /** One pass of the loop of `handleFiles`. */
    method UploadOne(file: File, net: UploadNet, accepted: seq<string>)
      requires Valid()
      modifies this`attachments, this`toasts, this`baseline, uploader
      ensures Valid() && baseline == old(baseline)
      ensures attachments == old(attachments) + FileKept(file, net, accepted)
      ensures uploader.sent == old(uploader.sent) + FileSteps(file, net, accepted)
      ensures toasts == old(toasts) + FileToasts(file, net, accepted)
    {
      if !Accepts(accepted, file.name) {
        return;
      }
      var r := uploader.UploadFile(file, net);
      match r {
        case Uploaded(a) =>
          attachments := attachments + [a];
          CaptureBaseline();
        case Failed(ApiFailed(e)) =>
          toasts := toasts + [Intercepted(e)];
        case Failed(TransferFailed) =>
      }
    }

    /** `removeFile(index)`: the list minus exactly position `index`, unchanged when `index`
        is out of range; the baseline stays. */
    method RemoveFile(index: int)
      requires Valid()
      modifies this`attachments, this`baseline
      ensures Valid() && baseline == old(baseline)
      ensures 0 <= index < |old(attachments)| ==>
                attachments == old(attachments)[..index] + old(attachments)[index + 1..]
      ensures !(0 <= index < |old(attachments)|) ==> attachments == old(attachments)
    {
      RemoveAtSpec(attachments, index);
      attachments := RemoveAt(attachments, index);
      CaptureBaseline();
    }
  }

  /** The inputs of the first-click example below: a fresh create form, all four fields filled. */
  function ExampleInputs(): TestInputs
  {
    TestInputs("Ada", "Lovelace", "female", "+15550100")
  }

  /** The first click on "Start Test Call" in a fresh create form with the four inputs filled
      and a save that returns an id, as written: the agent is created, the form still says it
      must be saved, and no call is placed. */
  method UnsavedTestCallAsWritten() returns (sent: seq<Sent>, toasts: seq<Notice>)
    ensures |sent| == 1 && sent[0].request.PostAgent?
    ensures toasts == [Shown(Toast(SuccessIcon, CreatedMessage)), Shown(Toast(ErrorIcon, MustSaveMessage))]
  {
    var form := new Form(Create, NoInitialData);
    form.SetTestInputs(ExampleInputs());
    form.HandleTestCall(Ok("agent-1"), Ok(TestCallData(true, "call-1")));
    sent, toasts := form.sent, form.toasts;
  }

  /** The same click with the guard re-reading the id after the save: the call goes to the new
      agent. */
  method UnsavedTestCallRechecked() returns (sent: seq<Sent>)
    ensures |sent| == 2 && sent[0].request.PostAgent?
    ensures sent[1] == Sent(PostTestCall("agent-1", TestCallBody("Ada", "Lovelace", "female", "+15550100")), false, true)
  {
    var form := new Form(Create, NoInitialData);
    form.SetTestInputs(ExampleInputs());
    form.HandleTestCallRechecked(Ok("agent-1"), Ok(TestCallData(true, "call-1")));
    sent := form.sent;
  }

  /** An edit form never sends anything: mounting leaves `agentId` null and only the create
      branch sets it, so whatever the initial data and the answers, the Save button sends
      nothing and shows nothing, and "Start Test Call" ends with "must be saved". The other
      events leave `agentId` alone, and those that may set it keep it in edit mode. */
  method EditFormNeverSends(init: InitialData, t: TestInputs, saveReply: Result<string>, callReply: Result<TestCallData>)
    returns (sent: seq<Sent>, toasts: seq<Notice>, id: Option<string>)
    ensures sent == [] && id == None
    ensures toasts == [Shown(Toast(ErrorIcon, MustSaveMessage))]
  {
    var form := new Form(Edit, init);
    form.SetTestInputs(t);
    form.ClickSave(saveReply);
    assert form.sent == [] && form.toasts == [] && form.agentId == None;
    form.HandleTestCall(saveReply, callReply);
    sent, toasts, id := form.sent, form.toasts, form.agentId;
  }
}
