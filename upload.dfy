/**
 * The three-step upload of src/hooks/useUpload.ts: ask for a signed upload URL, PUT the
 * bytes there, register the file; with the hook's `{uploading, error}` state. The network
 * answers are given as an oracle, one `UploadNet` per call.
 */
module Upload {
  import opened Maybe
  import opened Api
  import opened AgentTypes

  /** A browser `File`: name, size in bytes and MIME type. */
  datatype File = File(name: string, size: nat, mimeType: string)

  /** The answer of `POST /attachments/upload-url`. */
  datatype UploadTarget = UploadTarget(signedUrl: string, key: string)

  /** What `fetch` of the PUT yields: some HTTP response (whatever its status) or a throw. */
  datatype Transfer = Responded(status: int) | Threw

  /** The oracle for one upload: the answer of each of the three steps. */
  datatype UploadNet = UploadNet(target: Result<UploadTarget>, transfer: Transfer, registered: Result<Attachment>)

  /** The body of `POST /attachments`. */
  datatype Registration = Registration(key: string, fileName: string, fileSize: nat, mimeType: string)

  datatype UploadRequest =
    | RequestUploadUrl
    | PutBinary(url: string, body: File, contentType: string)
    | RegisterAttachment(registration: Registration)

  /** A request as it left, with the hook's `uploading` flag at that moment. */
  datatype UploadSent = UploadSent(request: UploadRequest, uploading: bool)

  datatype Failure = ApiFailed(error: HttpError) | TransferFailed

  /** How `uploadFile` settles: resolved with the attachment, or rejected. */
  datatype Outcome = Uploaded(attachment: Attachment) | Failed(failure: Failure)

  const OctetStream := "application/octet-stream"
  const UploadFailedMessage := "File upload failed"

  /** The registration of step 3: the key from step 1 and the file's own metadata. */
  function RegistrationFor(file: File, target: UploadTarget): Registration
  {
    Registration(target.key, file.name, file.size, file.mimeType)
  }

  /** The three requests of a complete upload, in order. */
  function AllSteps(file: File, target: UploadTarget): seq<UploadRequest>
  {
    [RequestUploadUrl, PutBinary(target.signedUrl, file, OctetStream),
     RegisterAttachment(RegistrationFor(file, target))]
  }

  /** The requests one call sends: none after a step that threw. */
  function Steps(file: File, net: UploadNet): (reqs: seq<UploadRequest>)
  {
    if net.target.Err? then [RequestUploadUrl]
    else if net.transfer.Threw? then [RequestUploadUrl, PutBinary(net.target.value.signedUrl, file, OctetStream)]
    else AllSteps(file, net.target.value)
  }

  /** How one call settles. */
  function UploadOutcome(file: File, net: UploadNet): Outcome
  {
    if net.target.Err? then Failed(ApiFailed(net.target.error))
    else if net.transfer.Threw? then Failed(TransferFailed)
    else if net.registered.Err? then Failed(ApiFailed(net.registered.error))
    else Uploaded(net.registered.value)
  }

  /** The steps run in the fixed order url, PUT, register: a call sends a non-empty prefix of
      the three requests, and the whole of them exactly when neither of the first two threw. */
  lemma StepsArePrefix(file: File, net: UploadNet)
    ensures 1 <= |Steps(file, net)| <= 3
    ensures net.target.Ok? ==> Steps(file, net) == AllSteps(file, net.target.value)[..|Steps(file, net)|]
    ensures net.target.Err? ==> Steps(file, net) == [RequestUploadUrl]
    ensures |Steps(file, net)| == 3 <==> net.target.Ok? && net.transfer.Responded?
  {
  }

  /** The call resolves exactly when all three steps went through, and then with the
      registration's answer; the registration sent carries step 1's key and the file's name,
      size and type. */
  lemma UploadSucceedsIff(file: File, net: UploadNet, a: Attachment)
    ensures UploadOutcome(file, net) == Uploaded(a)
            <==> net.target.Ok? && net.transfer.Responded? && net.registered == Ok(a)
    ensures UploadOutcome(file, net).Uploaded? ==>
              Steps(file, net)[2] == RegisterAttachment(Registration(net.target.value.key, file.name, file.size, file.mimeType))
  {
  }

  /** The PUT's status is never looked at: a 4xx or 5xx answer to the transfer still goes on to
      the registration, exactly as a 200 does. */
  lemma TransferStatusUnchecked(file: File, net: UploadNet, s1: int, s2: int)
    ensures UploadOutcome(file, net.(transfer := Responded(s1))) == UploadOutcome(file, net.(transfer := Responded(s2)))
    ensures Steps(file, net.(transfer := Responded(s1))) == Steps(file, net.(transfer := Responded(s2)))
  {
  }

  /** The `useUpload` hook's state, plus the log of the requests it sent. */
  class Uploader {
    var uploading: bool
    var error: Option<string>
    var sent: seq<UploadSent>

    constructor ()
      ensures !uploading && error == None && sent == []
    {
      uploading := false;
      error := None;
      sent := [];
    }

    /** `uploadFile`: clears the error and raises `uploading`, runs the steps in order while
        `uploading` is set, and ends with `uploading` lowered on every path; a failure of any
        step sets the error message and rejects, a success resolves with the registered
        attachment. */
    method UploadFile(file: File, net: UploadNet) returns (r: Outcome)
      modifies this
      ensures r == UploadOutcome(file, net)
      ensures sent == old(sent) + Tagged(Steps(file, net), true)
      ensures !uploading
      ensures error == if r.Failed? then Some(UploadFailedMessage) else None
    {
      uploading, error := true, None;
      sent := sent + [UploadSent(RequestUploadUrl, uploading)];
      if net.target.Err? {
        uploading, error := false, Some(UploadFailedMessage);
        r := Failed(ApiFailed(net.target.error));
      } else {
        var target := net.target.value;
        sent := sent + [UploadSent(PutBinary(target.signedUrl, file, OctetStream), uploading)];
        if net.transfer.Threw? {
          uploading, error := false, Some(UploadFailedMessage);
          r := Failed(TransferFailed);
        } else {
          sent := sent + [UploadSent(RegisterAttachment(Registration(target.key, file.name, file.size, file.mimeType)), uploading)];
          if net.registered.Err? {
            uploading, error := false, Some(UploadFailedMessage);
            r := Failed(ApiFailed(net.registered.error));
          } else {
            r := Uploaded(net.registered.value);
          }
        }
      }
      uploading := false;
    }
  }

  /** The requests of `reqs`, each sent while `uploading` was `flag`. */
  function Tagged(reqs: seq<UploadRequest>, flag: bool): seq<UploadSent>
  {
    seq(|reqs|, i requires 0 <= i < |reqs| => UploadSent(reqs[i], flag))
  }
}
