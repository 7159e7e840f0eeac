/**
 * The stand-alone handlers of src/components/agents/agent-form/handlers.ts. Each one reaches
 * the component only through the setters it is given; here those setters write the fields
 * of a `Session`, which also logs the requests sent and the toasts shown. The network
 * answers, and the upload callback, are given as an oracle.
 */
module Handlers {
  import opened Maybe
  import opened Api
  import opened AgentTypes
  import opened Upload
  import opened Files

  const CreatedMessage := "Agent created successfully!"
  const UpdatedMessage := "Agent updated successfully!"
  const CallFailedMessage := "Test call failed"

  /** `Test call initiated (ID: ${callId})` */
  function InitiatedMessage(callId: string): string
  {
    "Test call initiated (ID: " + callId + ")"
  }

  /** The toast `startTestCall` shows for an answer: `data.success` picks the icon and the
      title. */
  function TestCallToast(data: TestCallData): Toast
  {
    if data.success then Toast(SuccessIcon, InitiatedMessage(data.callId))
    else Toast(ErrorIcon, CallFailedMessage)
  }

  /** The files `uploadFiles` hands to `uploadFile`: those passing the extension filter, in
      order. */
  function Offered(files: seq<File>, accepted: seq<string>): seq<File>
  {
    if files == [] then []
    else
      var n := |files| - 1;
      Offered(files[..n], accepted) + (if Accepts(accepted, files[n].name) then [files[n]] else [])
  }

  /** A file is handed over exactly when it is in the batch and passes the filter. */
  lemma {:induction false} OfferedMembers(files: seq<File>, accepted: seq<string>)
    ensures forall f :: f in Offered(files, accepted) <==> f in files && Accepts(accepted, f.name)
  {
    if files != [] {
      var n := |files| - 1;
      OfferedMembers(files[..n], accepted);
      assert files == files[..n] + [files[n]];
    }
  }

  /** One more file walked: `Offered` gains the file when it passes the filter. */
  lemma OfferedStep(files: seq<File>, accepted: seq<string>, i: int)
    requires 0 <= i < |files|
    ensures Offered(files[..i + 1], accepted)
            == Offered(files[..i], accepted) + (if Accepts(accepted, files[i].name) then [files[i]] else [])
  {
    assert files[..i + 1][..i] == files[..i];
  }

  /** The component state the handlers' setters reach, and what they make visible. */
  class Session {
    var agentId: Option<string>
    var saving: bool
    var calling: bool
    var attachments: seq<Attachment>
    /** How many times `onSaved` was called. */
    var savedCalls: nat
    /** The files handed to `uploadFile`, in order. */
    var offered: seq<File>
    var sent: seq<Sent>
    var toasts: seq<Notice>

    constructor (atts: seq<Attachment>)
      ensures agentId == None && !saving && !calling && attachments == atts
      ensures savedCalls == 0 && offered == [] && sent == [] && toasts == []
    {
      agentId := None;
      saving, calling := false, false;
      attachments := atts;
      savedCalls := 0;
      offered := [];
      sent, toasts := [], [];
    }

    /** `saveAgent`: raises `saving` before anything is sent. Create mode POSTs and then
        stores the returned id; edit mode with an id PUTs to it; edit mode without one sends
        nothing. `onSaved` runs whenever the branch finished without a throw, including the
        branch that sent nothing, and never after a failure. `saving` ends false on every
        path. `reply` is the answer to the request, if one is sent; its value is the id the
        POST returns and is not read after a PUT. */
    method SaveAgent(mode: Mode, id: Option<string>, payload: AgentPayload, reply: Result<string>)
      modifies this`agentId, this`saving, this`savedCalls, this`sent, this`toasts
      ensures !saving
      ensures mode == Create ==> sent == old(sent) + [Sent(PostAgent(payload), true, calling)]
      ensures mode == Edit && HasId(id) ==> sent == old(sent) + [Sent(PutAgent(id.value, payload), true, calling)]
      ensures mode == Edit && !HasId(id) ==>
                sent == old(sent) && toasts == old(toasts) && agentId == old(agentId)
                && savedCalls == old(savedCalls) + 1
      ensures (mode == Create || HasId(id)) && reply.Err? ==>
                agentId == old(agentId) && savedCalls == old(savedCalls)
                && toasts == old(toasts) + [Intercepted(reply.error)]
      ensures mode == Create && reply.Ok? ==>
                agentId == Some(reply.value) && savedCalls == old(savedCalls) + 1
                && toasts == old(toasts) + [Shown(Toast(SuccessIcon, CreatedMessage))]
      ensures mode == Edit && HasId(id) && reply.Ok? ==>
                agentId == old(agentId) && savedCalls == old(savedCalls) + 1
                && toasts == old(toasts) + [Shown(Toast(SuccessIcon, UpdatedMessage))]
    {
      saving := true;
      if mode == Create {
        sent := sent + [Sent(PostAgent(payload), saving, calling)];
        match reply {
          case Err(e) =>
            toasts := toasts + [Intercepted(e)];
            saving := false;
            return;
          case Ok(newId) =>
            agentId := Some(newId);
            toasts := toasts + [Shown(Toast(SuccessIcon, CreatedMessage))];
        }
      } else if HasId(id) {
        sent := sent + [Sent(PutAgent(id.value, payload), saving, calling)];
        match reply {
          case Err(e) =>
            toasts := toasts + [Intercepted(e)];
            saving := false;
            return;
          case Ok(_) =>
            toasts := toasts + [Shown(Toast(SuccessIcon, UpdatedMessage))];
        }
      }
      savedCalls := savedCalls + 1;
      saving := false;
    }

    /** `startTestCall`: always sends exactly one request, to the given id, with the four
        inputs unchecked and the phone as `phoneNumber`, while `calling` is raised; an
        answer shows the success or failure toast, a throw only the interceptor's. `calling`
        ends false on every path. */
    method StartTestCall(id: string, firstName: string, lastName: string, gender: string, phone: string,
                         reply: Result<TestCallData>)
      modifies this`calling, this`sent, this`toasts
      ensures !calling
      ensures sent == old(sent) + [Sent(PostTestCall(id, TestCallBody(firstName, lastName, gender, phone)), saving, true)]
      ensures reply.Ok? ==> toasts == old(toasts) + [Shown(TestCallToast(reply.value))]
      ensures reply.Err? ==> toasts == old(toasts) + [Intercepted(reply.error)]
    {
      calling := true;
      sent := sent + [Sent(PostTestCall(id, TestCallBody(firstName, lastName, gender, phone)), saving, calling)];
      match reply {
        case Ok(data) =>
          toasts := toasts + [Shown(TestCallToast(data))];
        case Err(e) =>
          toasts := toasts + [Intercepted(e)];
      }
      calling := false;
    }

    /** `uploadFiles`: nothing for a missing list; otherwise each file in order, skipping
        those the filter rejects, handing the others to `uploadFile` and appending what it
        resolves with; a rejection is swallowed and the loop goes on. `outcomes[i]` is how
        `uploadFile(files[i])` would settle. */
    method UploadFiles(files: Option<seq<File>>, outcomes: seq<Outcome>, accepted: seq<string>)
      requires files.Some? ==> |outcomes| == |files.value|
      modifies this`attachments, this`offered
      ensures files == None ==> attachments == old(attachments) && offered == old(offered)
      ensures files.Some? ==> attachments == old(attachments) + Kept(files.value, outcomes, accepted)
      ensures files.Some? ==> offered == old(offered) + Offered(files.value, accepted)
    {
      if files == None {
        return;
      }
      var fs := files.value;
      var i := 0;
      while i < |fs|
        invariant 0 <= i <= |fs|
        invariant attachments == old(attachments) + Kept(fs[..i], outcomes[..i], accepted)
        invariant offered == old(offered) + Offered(fs[..i], accepted)
      {
        KeptStep(fs, outcomes, accepted, i);
        OfferedStep(fs, accepted, i);
        UploadOne(fs[i], outcomes[i], accepted);
        i := i + 1;
      }
      assert fs[..|fs|] == fs && outcomes[..|fs|] == outcomes;
    }

    /** One pass of the loop of `uploadFiles`: a rejected file is skipped; an accepted one is
        handed to `uploadFile`, and what it resolves with is appended. */
    method UploadOne(file: File, outcome: Outcome, accepted: seq<string>)
      modifies this`attachments, this`offered
      ensures attachments == old(attachments) + KeptOne(file, outcome, accepted)
      ensures offered == old(offered) + (if Accepts(accepted, file.name) then [file] else [])
    {
      if !Accepts(accepted, file.name) {
        return;
      }
      offered := offered + [file];
      if outcome.Uploaded? {
        attachments := attachments + [outcome.attachment];
      }
    }

    /** `removeAttachment(index)`: the list minus exactly position `index`, in order; the
        list as it was when `index` is out of range. */
    method RemoveAttachment(index: int)
      modifies this`attachments
      ensures 0 <= index < |old(attachments)| ==>
                attachments == old(attachments)[..index] + old(attachments)[index + 1..]
      ensures !(0 <= index < |old(attachments)|) ==> attachments == old(attachments)
    {
      RemoveAtSpec(attachments, index);
      attachments := RemoveAt(attachments, index);
    }
  }
}
