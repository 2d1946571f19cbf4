/** The video resource handlers as transitions over the video collection.
    Each handler takes the collection and the request and returns the
    collection after the call together with the reply or the thrown error. */
module Videos {
  import opened JsValues
  import opened Cloudinary
  import opened Api

  datatype Video = Video(
    videoFile: string,
    thumbnail: string,
    owner: Nullable<ObjectId>,
    title: string,
    description: string,
    duration: int,
    isPublished: bool)

  type VideoStore = map<ObjectId, Video>

  /** The handlers' owner test. `sameOwner(video.owner, caller)` holds when the
      comparison `video.owner != req.user?._id` lets the caller through. */
  type OwnerTest = (Nullable<ObjectId>, Nullable<ObjectId>) -> bool

  const MissingData := ApiError(400, "Missing data")
  const UploadFailed := ApiError(500, "Something went wrong in uploading video and thumbnail to cloudinary")
  const NoVideoWithId := ApiError(404, "No video found with this videoId")
  const VideoAbsent := ApiError(404, "Video does not exists")
  const NotOwner := ApiError(403, "Not authorized, video owner is different")

  /** `title` and `description` from the body, and the local paths multer
      stored the `videoFile` and `thumbnail` parts under. */
  datatype PublishRequest = PublishRequest(
    title: Nullable<string>,
    description: Nullable<string>,
    videoPath: Nullable<string>,
    thumbnailPath: Nullable<string>)

  predicate HasMissingData(req: PublishRequest) {
    Blank(req.title) || Blank(req.description) || Blank(req.videoPath) || Blank(req.thumbnailPath)
  }

  /** `publishAVideo`: validate, upload both files, create the document.
      `newId` is the identifier the database assigns and `publishedDefault`
      the schema default of `isPublished`. */
  function PublishAVideo(
    videos: VideoStore, req: PublishRequest, caller: Nullable<ObjectId>,
    videoSdk: SdkOutcome, thumbSdk: SdkOutcome,
    newId: ObjectId, publishedDefault: bool): (s: Step<VideoStore, (ObjectId, Video)>)
    ensures s.reply == Err(MissingData) <==> HasMissingData(req)
    ensures s.reply != Err(UploadFailed)
    ensures s.reply.Err? ==> s.store == videos
    ensures s.reply.Ok? <==> !HasMissingData(req) && newId !in videos
    ensures s.reply.Ok? ==>
      var v := s.reply.data.1;
      && s.reply.status == 201
      && s.reply.data.0 == newId
      && newId !in videos
      && s.store == videos[newId := v]
      && v.owner == caller
      && v.title == req.title.value
      && v.description == req.description.value
      && v.duration == 0
      && v.isPublished == publishedDefault
      && v.videoFile == (if videoSdk.Responded? then videoSdk.url else FailedUploadUrl)
      && v.thumbnail == (if thumbSdk.Responded? then thumbSdk.url else FailedUploadUrl)
  {
    if HasMissingData(req) then Step(videos, Err(MissingData))
    else
      var videoFile := Upload(req.videoPath, videoSdk);
      var thumbnail := Upload(req.thumbnailPath, thumbSdk);
      if videoFile.Nullish? || thumbnail.Nullish? then Step(videos, Err(UploadFailed))
      else
        var v := Video(videoFile.value, thumbnail.value, caller,
                       req.title.value, req.description.value, 0, publishedDefault);
        if newId in videos then Step(videos, Err(DuplicateKey))
        else Step(videos[newId := v], Ok(201, (newId, v)))
  }

  /** `getVideoById`: a read; the collection is not an output. */
  function GetVideoById(videos: VideoStore, id: ObjectId): (r: Reply<Video>)
    ensures r.Err? <==> id !in videos
    ensures r.Err? ==> r.failure == NoVideoWithId
    ensures r.Ok? ==> r.status == 200 && r.data == videos[id]
  {
    if id in videos then Ok(200, videos[id]) else Err(NoVideoWithId)
  }

  /** The guard every mutating handler runs first: existence, then ownership. */
  function CheckOwnership(videos: VideoStore, id: ObjectId, caller: Nullable<ObjectId>, sameOwner: OwnerTest): Nullable<Failure>
  {
    if id !in videos then Present(VideoAbsent)
    else if !sameOwner(videos[id].owner, caller) then Present(NotOwner)
    else Nullish
  }

  /** The fields `updateVideo` reads: `title` and `description` from the body
      and the path of the optional `thumbnail` file. */
  datatype UpdateRequest = UpdateRequest(
    title: Nullable<string>,
    description: Nullable<string>,
    thumbnailPath: Nullable<string>)

  /** The `$set` of `updateVideo`, each field written as `new ?? old`. */
  function Merge(v: Video, title: Nullable<string>, description: Nullable<string>, thumbnailUrl: Nullable<string>): Video {
    v.(title := title.Coalesce(v.title),
       description := description.Coalesce(v.description),
       thumbnail := thumbnailUrl.Coalesce(v.thumbnail))
  }

  function UpdateWithThumbnailUrl(
    videos: VideoStore, id: ObjectId, caller: Nullable<ObjectId>, sameOwner: OwnerTest,
    req: UpdateRequest, thumbnailUrl: Nullable<string>): Step<VideoStore, Video>
  {
    var denied := CheckOwnership(videos, id, caller, sameOwner);
    if denied.Present? then Step(videos, Err(denied.value))
    else
      var v := Merge(videos[id], req.title, req.description, thumbnailUrl);
      Step(videos[id := v], Ok(200, v))
  }

  /** Reading `url` off the promise an un-awaited `uploadOnCloudinary` call
      returns yields `undefined`. */
  const PendingUploadUrl: Nullable<string> := Nullish

  /** `updateVideo` as written: the upload is started but not awaited, so the
      thumbnail expression is `undefined ?? video.thumbnail`. `thumbSdk` is
      never read here; it is kept so that this form and UpdateVideoAwaited take
      the same inputs and UpdateKeepsThumbnail can compare them call for call. */
  function UpdateVideo(
    videos: VideoStore, id: ObjectId, caller: Nullable<ObjectId>, sameOwner: OwnerTest,
    req: UpdateRequest, thumbSdk: SdkOutcome): (s: Step<VideoStore, Video>)
    ensures id !in videos ==> s == Step(videos, Err(VideoAbsent))
    ensures id in videos && !sameOwner(videos[id].owner, caller) ==> s == Step(videos, Err(NotOwner))
    ensures s.reply.Ok? <==> id in videos && sameOwner(videos[id].owner, caller)
    ensures s.reply.Ok? ==>
      var prev := videos[id];
      var v := s.reply.data;
      && s.reply.status == 200
      && s.store == videos[id := v]
      && (req.title.Present? ==> v.title == req.title.value)
      && (req.title.Nullish? ==> v.title == prev.title)
      && (req.description.Present? ==> v.description == req.description.value)
      && (req.description.Nullish? ==> v.description == prev.description)
      && v.(title := prev.title, description := prev.description) == prev
  {
    UpdateWithThumbnailUrl(videos, id, caller, sameOwner, req, PendingUploadUrl)
  }

  /** `updateVideo` with the upload awaited and the thumbnail written as
      `thumbnail?.url ?? video.thumbnail`, the form the handler's own
      commented-out draft uses. */
  function UpdateVideoAwaited(
    videos: VideoStore, id: ObjectId, caller: Nullable<ObjectId>, sameOwner: OwnerTest,
    req: UpdateRequest, thumbSdk: SdkOutcome): (s: Step<VideoStore, Video>)
    ensures id !in videos ==> s == Step(videos, Err(VideoAbsent))
    ensures id in videos && !sameOwner(videos[id].owner, caller) ==> s == Step(videos, Err(NotOwner))
    ensures s.reply.Ok? <==> id in videos && sameOwner(videos[id].owner, caller)
    ensures s.reply.Ok? ==>
      var prev := videos[id];
      var v := s.reply.data;
      && s.reply.status == 200
      && s.store == videos[id := v]
      && (req.title.Present? ==> v.title == req.title.value)
      && (req.title.Nullish? ==> v.title == prev.title)
      && (req.description.Present? ==> v.description == req.description.value)
      && (req.description.Nullish? ==> v.description == prev.description)
      && (!Truthy(req.thumbnailPath) ==> v.thumbnail == prev.thumbnail)
      && (Truthy(req.thumbnailPath) && thumbSdk.Responded? ==> v.thumbnail == thumbSdk.url)
      && (Truthy(req.thumbnailPath) && thumbSdk.Threw? ==> v.thumbnail == FailedUploadUrl)
      && v.(title := prev.title, description := prev.description, thumbnail := prev.thumbnail) == prev
  {
    UpdateWithThumbnailUrl(videos, id, caller, sameOwner, req, Upload(req.thumbnailPath, thumbSdk))
  }

  /** `deleteVideo` */
  function DeleteVideo(videos: VideoStore, id: ObjectId, caller: Nullable<ObjectId>, sameOwner: OwnerTest): (s: Step<VideoStore, ()>)
    ensures id !in videos ==> s == Step(videos, Err(VideoAbsent))
    ensures id in videos && !sameOwner(videos[id].owner, caller) ==> s == Step(videos, Err(NotOwner))
    ensures s.reply.Ok? <==> id in videos && sameOwner(videos[id].owner, caller)
    ensures s.reply.Ok? ==>
      && s.reply.status == 200
      && s.store.Keys == videos.Keys - {id}
      && forall k :: k in s.store ==> s.store[k] == videos[k]
  {
    var denied := CheckOwnership(videos, id, caller, sameOwner);
    if denied.Present? then Step(videos, Err(denied.value))
    else Step(videos - {id}, Ok(200, ()))
  }

  /** `togglePublishStatus` */
  function TogglePublishStatus(videos: VideoStore, id: ObjectId, caller: Nullable<ObjectId>, sameOwner: OwnerTest): (s: Step<VideoStore, Video>)
    ensures id !in videos ==> s == Step(videos, Err(VideoAbsent))
    ensures id in videos && !sameOwner(videos[id].owner, caller) ==> s == Step(videos, Err(NotOwner))
    ensures s.reply.Ok? <==> id in videos && sameOwner(videos[id].owner, caller)
    ensures s.reply.Ok? ==>
      var prev := videos[id];
      var v := s.reply.data;
      && s.reply.status == 200
      && s.store == videos[id := v]
      && v.isPublished != prev.isPublished
      && v.(isPublished := prev.isPublished) == prev
  {
    var denied := CheckOwnership(videos, id, caller, sameOwner);
    if denied.Present? then Step(videos, Err(denied.value))
    else
      var prev := videos[id];
      var v := prev.(isPublished := !prev.isPublished);
      Step(videos[id := v], Ok(200, v))
  }

  // ---------------------------------------------------------------------
  // Properties relating the handlers to each other
  // ---------------------------------------------------------------------

  /** A published video can be fetched back unchanged under its new id, and
      fetching any other id answers as before. */
  lemma PublishThenGet(
    videos: VideoStore, req: PublishRequest, caller: Nullable<ObjectId>,
    videoSdk: SdkOutcome, thumbSdk: SdkOutcome, newId: ObjectId, publishedDefault: bool, other: ObjectId)
    requires !HasMissingData(req) && newId !in videos
    requires other != newId
    ensures
      var s := PublishAVideo(videos, req, caller, videoSdk, thumbSdk, newId, publishedDefault);
      && GetVideoById(s.store, newId) == Ok(200, s.reply.data.1)
      && GetVideoById(s.store, other) == GetVideoById(videos, other)
  {
  }

  /** Toggling twice restores the collection and the record. */
  lemma ToggleTwiceRestores(videos: VideoStore, id: ObjectId, caller: Nullable<ObjectId>, sameOwner: OwnerTest)
    requires id in videos && sameOwner(videos[id].owner, caller)
    ensures
      var once := TogglePublishStatus(videos, id, caller, sameOwner);
      var twice := TogglePublishStatus(once.store, id, caller, sameOwner);
      && twice.reply == Ok(200, videos[id])
      && twice.store == videos
  {
    var once := TogglePublishStatus(videos, id, caller, sameOwner);
    assert once.store[id].owner == videos[id].owner;
  }

  /** An update that supplies neither title nor description changes nothing. */
  lemma EmptyUpdateChangesNothing(
    videos: VideoStore, id: ObjectId, caller: Nullable<ObjectId>, sameOwner: OwnerTest,
    thumbnailPath: Nullable<string>, thumbSdk: SdkOutcome)
    requires id in videos && sameOwner(videos[id].owner, caller)
    ensures
      var s := UpdateVideo(videos, id, caller, sameOwner, UpdateRequest(Nullish, Nullish, thumbnailPath), thumbSdk);
      s == Step(videos, Ok(200, videos[id]))
  {
    var s := UpdateVideo(videos, id, caller, sameOwner, UpdateRequest(Nullish, Nullish, thumbnailPath), thumbSdk);
    assert s.reply.data == videos[id];
    assert videos[id := videos[id]] == videos;
  }

  /** The empty string is not nullish: it overwrites the title. */
  lemma EmptyTitleOverwrites(
    videos: VideoStore, id: ObjectId, caller: Nullable<ObjectId>, sameOwner: OwnerTest,
    req: UpdateRequest, thumbSdk: SdkOutcome)
    requires id in videos && sameOwner(videos[id].owner, caller)
    requires req.title == Present("")
    ensures UpdateVideo(videos, id, caller, sameOwner, req, thumbSdk).store[id].title == ""
  {
  }

  /** Applying the same update twice leaves the collection as applying it once. */
  lemma UpdateIdempotent(
    videos: VideoStore, id: ObjectId, caller: Nullable<ObjectId>, sameOwner: OwnerTest,
    req: UpdateRequest, thumbSdk: SdkOutcome)
    ensures
      var once := UpdateVideo(videos, id, caller, sameOwner, req, thumbSdk);
      UpdateVideo(once.store, id, caller, sameOwner, req, thumbSdk).store == once.store
  {
    var once := UpdateVideo(videos, id, caller, sameOwner, req, thumbSdk);
    if id in videos && sameOwner(videos[id].owner, caller) {
      assert once.store[id].owner == videos[id].owner;
    }
  }

  /** After a delete the id is gone: reading it gives 404 and deleting it
      again gives 404; the other videos read as before. */
  lemma DeleteThenGet(videos: VideoStore, id: ObjectId, caller: Nullable<ObjectId>, sameOwner: OwnerTest, other: ObjectId)
    requires id in videos && sameOwner(videos[id].owner, caller)
    requires other != id
    ensures
      var s := DeleteVideo(videos, id, caller, sameOwner);
      && GetVideoById(s.store, id) == Err(NoVideoWithId)
      && DeleteVideo(s.store, id, caller, sameOwner) == Step(s.store, Err(VideoAbsent))
      && GetVideoById(s.store, other) == GetVideoById(videos, other)
  {
  }

  // ---------------------------------------------------------------------
  // The owner test
  // ---------------------------------------------------------------------

  /** `video.owner != req.user?._id` as JavaScript evaluates it: the stored
      owner and the caller's id are two distinct ObjectId instances, and loose
      (in)equality between objects compares references, so they are never
      equal; only `null`/`undefined` on both sides compare equal. */
  function JsLooseOwnerEq(owner: Nullable<ObjectId>, caller: Nullable<ObjectId>): bool {
    owner.Nullish? && caller.Nullish?
  }

  /** The evidently intended test: the caller is the recorded owner. */
  function OwnerIdEq(owner: Nullable<ObjectId>, caller: Nullable<ObjectId>): bool {
    owner.Present? && owner == caller
  }

  /** With the test as written, the owner of a video is refused by all three
      mutating handlers. */
  lemma OwnerRejectedAsWritten(videos: VideoStore, id: ObjectId, u: ObjectId, req: UpdateRequest, thumbSdk: SdkOutcome)
    requires id in videos && videos[id].owner == Present(u)
    ensures UpdateVideo(videos, id, Present(u), JsLooseOwnerEq, req, thumbSdk) == Step(videos, Err(NotOwner))
    ensures DeleteVideo(videos, id, Present(u), JsLooseOwnerEq) == Step(videos, Err(NotOwner))
    ensures TogglePublishStatus(videos, id, Present(u), JsLooseOwnerEq) == Step(videos, Err(NotOwner))
  {
  }

  /** With the test as written, a video without an owner can be changed by a
      request that carries no user. */
  lemma OwnerlessVideoOpenAsWritten(videos: VideoStore, id: ObjectId)
    requires id in videos && videos[id].owner.Nullish?
    ensures DeleteVideo(videos, id, Nullish, JsLooseOwnerEq).reply.Ok?
    ensures TogglePublishStatus(videos, id, Nullish, JsLooseOwnerEq).reply.Ok?
  {
  }

  /** With the id-value test the owner gets through and anybody else is
      refused with 403. */
  lemma OwnerAcceptedByValue(videos: VideoStore, id: ObjectId, caller: Nullable<ObjectId>, req: UpdateRequest, thumbSdk: SdkOutcome)
    requires id in videos && videos[id].owner.Present?
    ensures caller == videos[id].owner ==>
      && UpdateVideo(videos, id, caller, OwnerIdEq, req, thumbSdk).reply.Ok?
      && DeleteVideo(videos, id, caller, OwnerIdEq).reply.Ok?
      && TogglePublishStatus(videos, id, caller, OwnerIdEq).reply.Ok?
    ensures caller != videos[id].owner ==>
      && UpdateVideo(videos, id, caller, OwnerIdEq, req, thumbSdk) == Step(videos, Err(NotOwner))
      && DeleteVideo(videos, id, caller, OwnerIdEq) == Step(videos, Err(NotOwner))
      && TogglePublishStatus(videos, id, caller, OwnerIdEq) == Step(videos, Err(NotOwner))
  {
  }

  // ---------------------------------------------------------------------
  // The thumbnail of updateVideo
  // ---------------------------------------------------------------------

  /** As written, a new thumbnail is never stored: even when the upload would
      succeed with a different URL, the old thumbnail stays. */
  lemma UpdateKeepsThumbnail(
    videos: VideoStore, id: ObjectId, caller: Nullable<ObjectId>, sameOwner: OwnerTest,
    req: UpdateRequest, url: string)
    requires id in videos && sameOwner(videos[id].owner, caller)
    requires Truthy(req.thumbnailPath) && url != videos[id].thumbnail
    ensures UpdateVideo(videos, id, caller, sameOwner, req, Responded(url)).store[id].thumbnail == videos[id].thumbnail
    ensures UpdateVideoAwaited(videos, id, caller, sameOwner, req, Responded(url)).store[id].thumbnail == url
    ensures UpdateVideo(videos, id, caller, sameOwner, req, Responded(url))
         != UpdateVideoAwaited(videos, id, caller, sameOwner, req, Responded(url))
  {
  }
}
