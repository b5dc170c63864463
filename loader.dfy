/**
 * The upload progress holder (core/attachment/Loader.ts) and the upload request that owns
 * one (core/attachment/Request.ts, only its state: the cached answer and the file it sends).
 */
module Loaders {
  import opened Wrappers
  import Text
  import Attachments

  datatype Status = Error | Loading | Done | Hold

  datatype Progress = Progress(loaded: int, total: int)

  /**
   * The abortable transfer and the promise's reject function are foreign objects; the model
   * keeps an opaque handle for each and reports, from each method, whether it called them.
   */
  type Handle = nat

  class Loader {
    var current: Option<Handle>
    var reject: Option<Handle>
    var status: Status
    var progress: Option<Progress>

    constructor ()
      ensures current == None && reject == None
      ensures status == Hold && progress == None
    {
      current := None;
      reject := None;
      status := Hold;
      progress := None;
    }

    method SetCurrent(c: Option<Handle>)
      modifies this
      ensures current == c
      ensures reject == old(reject) && status == old(status) && progress == old(progress)
    {
      current := c;
    }

    method SetReject(r: Option<Handle>)
      modifies this
      ensures reject == r
      ensures current == old(current) && status == old(status) && progress == old(progress)
    {
      reject := r;
    }

    method SetStatus(s: Status)
      modifies this
      ensures status == s
      ensures current == old(current) && reject == old(reject) && progress == old(progress)
    {
      status := s;
    }

    method SetProgress(p: Progress)
      modifies this
      ensures progress == Some(p)
      ensures current == old(current) && reject == old(reject) && status == old(status)
    {
      progress := Some(Progress(p.loaded, p.total));
    }

    /** `abort`: cancels the transfer when there is one, then always resets to "hold" with no progress. */
    method Abort() returns (aborted: Option<Handle>)
      modifies this
      ensures aborted == old(current)
      ensures status == Hold && progress == None
      ensures current == old(current) && reject == old(reject)
    {
      aborted := current;
      SetStatus(Hold);
      progress := None;
    }

    /** The guard of `stop`: a reject function is set and a transfer is running. */
    predicate StopActs()
      reads this
    {
      reject.Some? && status == Loading
    }

    /**
     * `stop`: only a running transfer with a reject function is stopped; it is then rejected
     * and put on "hold". Afterwards the guard is false, so a second `stop` changes nothing.
     */
    method Stop() returns (rejected: Option<Handle>)
      modifies this
      ensures old(StopActs()) ==> rejected == old(reject) && status == Hold
      ensures !old(StopActs()) ==> rejected == None && status == old(status)
      ensures current == old(current) && reject == old(reject) && progress == old(progress)
      ensures !StopActs()
    {
      rejected := None;
      if reject.Some? && status == Loading {
        rejected := reject;
        SetStatus(Hold);
      }
    }
  }

  /** What `Request` is given to send: the picked document's uri, mime type and name. */
  datatype FileInfo = FileInfo(uri: string, mime: string, name: string)

  /** `Request.type`: the upload endpoint chosen from the mime type, first match wins. */
  function UploadKind(mime: string): (k: Attachments.AttachmentType)
    ensures k == Attachments.Image <==> Text.Includes(mime, "image")
    ensures k == Attachments.Video <==> !Text.Includes(mime, "image") && Text.Includes(mime, "video")
    ensures k == Attachments.Audio <==>
      !Text.Includes(mime, "image") && !Text.Includes(mime, "video") && Text.Includes(mime, "audio")
    ensures k != Attachments.Sticker
  {
    if Text.Includes(mime, "image") then Attachments.Image
    else if Text.Includes(mime, "video") then Attachments.Video
    else if Text.Includes(mime, "audio") then Attachments.Audio
    else Attachments.File
  }

  /**
   * One pending upload (`Request`): its loader, the file and the attachment the server gave back
   * for it, cached once `start` has succeeded.
   */
  class Upload {
    const loader: Loader
    const file: FileInfo
    var attachment: Option<Attachments.Attachment>

    constructor (file: FileInfo)
      ensures this.file == file && attachment == None
      ensures fresh(loader) && loader.status == Hold && loader.progress == None
      ensures loader.reject == None && loader.current == None
    {
      this.file := file;
      attachment := None;
      loader := new Loader();
    }

    /** The effect of a successful `start`: the answer is cached on the request. */
    method Resolve(a: Attachments.Attachment)
      modifies this
      ensures attachment == Some(a)
    {
      attachment := Some(a);
    }
  }
}
