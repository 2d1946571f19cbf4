/** The contract of `uploadOnCloudinary` as the handlers see it. The network
    call itself is not modelled: what the SDK does is an input. */
module Cloudinary {
  import opened JsValues

  /** What the SDK upload call does once attempted. */
  datatype SdkOutcome = Responded(url: string) | Threw

  /** The `url` the helper resolves to after a failed upload. */
  const FailedUploadUrl := " "

  /** The `url` field of the value `await uploadOnCloudinary(localPath)`
      resolves to, or Nullish when it resolves to `null`. */
  function Upload(localPath: Nullable<string>, sdk: SdkOutcome): (url: Nullable<string>)
    ensures url.Nullish? <==> !Truthy(localPath)
    ensures Truthy(localPath) && sdk.Threw? ==> url == Present(FailedUploadUrl)
    ensures Truthy(localPath) && sdk.Responded? ==> url == Present(sdk.url)
  {
    if !Truthy(localPath) then Nullish
    else match sdk
      case Responded(u) => Present(u)
      case Threw => Present(FailedUploadUrl)
  }

  /** A path that passed the controllers' blank-field validation is truthy,
      so the helper never resolves to `null` for it, whatever the network does. */
  lemma ValidatedPathNeverNull(localPath: Nullable<string>, sdk: SdkOutcome)
    requires !Blank(localPath)
    ensures Upload(localPath, sdk).Present?
  {
  }
}
