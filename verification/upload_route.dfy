/** `POST /api/upload` (src/app/api/upload/route.ts): the validation chain in
    front of the blob store. The blob store's `put` is an input: what it would
    return for this file. */
module UploadRoute {
  import opened Optional
  import opened Ascii
  import opened Http

  datatype UploadFile = UploadFile(name: string, mimeType: string, size: nat)

  /** What `request.formData()` produced: the `file` entry (absent or not), or a
      parse failure (it throws). */
  datatype FormPayload = Unreadable | Fields(file: Option<UploadFile>)

  datatype Blob = Blob(url: string, pathname: string)

  /** The result `put` would have for this file. */
  datatype PutResult = Stored(blob: Blob) | PutFailed

  /** The reply and whether `put` was called. */
  datatype UploadOutcome = UploadOutcome(reply: Reply<Blob>, putCalled: bool)

  /** 10 MiB. */
  const MaxBytes: nat := 10 * 1024 * 1024

  const ImagePrefix := "image/"

  const Unauthorized := "Unauthorized"
  const NoFile := "No file provided"
  const NotImage := "Only image files are allowed"
  const TooLarge := "File size must be less than 10MB"
  const UploadFailed := "Failed to upload file"

  /** Every check before `put` passes. */
  predicate Acceptable(signedIn: bool, form: FormPayload) {
    && signedIn && form.Fields? && form.file.Some?
    && StartsWith(form.file.value.mimeType, ImagePrefix)
    && form.file.value.size <= MaxBytes
  }

  function Upload(signedIn: bool, form: FormPayload, put: PutResult): (r: UploadOutcome)
    ensures r.reply.status == 401 <==> !signedIn
    ensures r.reply.body == ErrorMessage(NoFile) <==> signedIn && form.Fields? && form.file.None?
    ensures r.reply.body == ErrorMessage(NotImage) <==>
              signedIn && form.Fields? && form.file.Some? && !StartsWith(form.file.value.mimeType, ImagePrefix)
    ensures r.reply.body == ErrorMessage(TooLarge) <==>
              && signedIn && form.Fields? && form.file.Some?
              && StartsWith(form.file.value.mimeType, ImagePrefix) && form.file.value.size > MaxBytes
    ensures r.reply.status == 400 <==>
              signedIn && form.Fields? && !Acceptable(signedIn, form)
    ensures r.putCalled <==> Acceptable(signedIn, form)
    ensures r.reply.status == 200 <==> Acceptable(signedIn, form) && put.Stored?
    ensures r.reply.status == 200 ==> r.reply.body == Payload(put.blob)
    ensures r.reply.status == 500 <==>
              signedIn && (form.Unreadable? || (Acceptable(signedIn, form) && put.PutFailed?))
  {
    if !signedIn then UploadOutcome(Fail(401, Unauthorized), false)
    else match form
      case Unreadable => UploadOutcome(Fail(500, UploadFailed), false)
      case Fields(file) =>
        if file.None? then UploadOutcome(Fail(400, NoFile), false)
        else if !StartsWith(file.value.mimeType, ImagePrefix) then UploadOutcome(Fail(400, NotImage), false)
        else if file.value.size > MaxBytes then UploadOutcome(Fail(400, TooLarge), false)
        else match put
          case Stored(blob) => UploadOutcome(Reply(200, Payload(blob)), true)
          case PutFailed => UploadOutcome(Fail(500, UploadFailed), true)
  }

  /** The size bound is inclusive: exactly 10485760 bytes is accepted, one more
      byte is refused. */
  lemma SizeBoundary(name: string, mimeType: string, put: PutResult)
    requires StartsWith(mimeType, ImagePrefix)
    ensures Upload(true, Fields(Some(UploadFile(name, mimeType, 10485760))), put).putCalled
    ensures Upload(true, Fields(Some(UploadFile(name, mimeType, 10485761))), put).reply == Fail(400, TooLarge)
  {
  }

  /** Only the session decides the reply when there is none, whatever was sent. */
  lemma UnauthorizedIgnoresRequest(form1: FormPayload, form2: FormPayload, put1: PutResult, put2: PutResult)
    ensures Upload(false, form1, put1) == Upload(false, form2, put2)
  {
  }
}
