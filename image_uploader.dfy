/**
 * The visual-sage image uploader: a drop zone and a file input that accept
 * one image of at most 4 MiB, report why a file was refused, and hand the
 * accepted file's `data:` URL to the `onImageUpload` callback.
 */
module ImageUploader {
  import opened Wrappers
  import opened EcmaString
  import opened Browser

  /** The size limit, in bytes: files strictly larger are refused. */
  const MaxUploadBytes: nat := 4 * 1024 * 1024

  const TooLargeMessage := "File is too large. Please upload an image under 4MB."
  const InvalidTypeMessage := "Invalid file type. Please upload an image."

  datatype Verdict = TooLarge | InvalidType | Accepted

  /** The checks of `handleFileChange`, in their order: size first, then type. */
  function Validate(file: File): (v: Verdict)
    ensures v == Accepted <==> file.size <= MaxUploadBytes && StartsWith(file.mimeType, "image/")
    ensures v == TooLarge <==> file.size > MaxUploadBytes
    ensures v == InvalidType <==> file.size <= MaxUploadBytes && !StartsWith(file.mimeType, "image/")
  {
    if file.size > MaxUploadBytes then TooLarge
    else if !StartsWith(file.mimeType, "image/") then InvalidType
    else Accepted
  }

  /** A file of exactly 4,194,304 bytes passes the size check: the comparison is strict. */
  lemma ExactLimitPasses(mimeType: string, dataUrl: string)
    ensures Validate(File(4194304, mimeType, dataUrl)) != TooLarge
    ensures Validate(File(4194305, mimeType, dataUrl)) == TooLarge
  {
  }

  /** A file failing both checks is reported as too large. */
  lemma SizeReportedFirst(file: File)
    requires file.size > MaxUploadBytes && !StartsWith(file.mimeType, "image/")
    ensures Validate(file) == TooLarge
  {
  }

  class Uploader {
    var dragging: bool
    var error: Option<string>
    /** Every `data:` URL handed to `onImageUpload`, oldest first. */
    var uploads: seq<string>
    /** The value of the file input. */
    var inputValue: string
    /** The `disabled` prop. */
    var disabled: bool

    constructor (disabled: bool)
      ensures this.disabled == disabled
      ensures !dragging && error == None && uploads == [] && inputValue == ""
    {
      this.disabled := disabled;
      dragging, error, uploads, inputValue := false, None, [], "";
    }

    /**
     * `handleFileChange`: no file changes nothing; a refused file sets the
     * matching error and uploads nothing; an accepted file clears the error
     * and is uploaded once.
     */
    method HandleFileChange(file: Option<File>)
      modifies this
      ensures dragging == old(dragging) && inputValue == old(inputValue) && disabled == old(disabled)
      ensures file == None ==> error == old(error) && uploads == old(uploads)
      ensures file != None ==> match Validate(file.value)
        case TooLarge => error == Some(TooLargeMessage) && uploads == old(uploads)
        case InvalidType => error == Some(InvalidTypeMessage) && uploads == old(uploads)
        case Accepted => error == None && uploads == old(uploads) + [file.value.dataUrl]
    {
      if file.Some? {
        var f := file.value;
        if f.size > MaxUploadBytes {
          error := Some(TooLargeMessage);
          return;
        }
        if !StartsWith(f.mimeType, "image/") {
          error := Some(InvalidTypeMessage);
          return;
        }
        error := None;
        uploads := uploads + [f.dataUrl];
      }
    }

    /** `handleInputChange`: only the first chosen file is considered; the input is reset. */
    method HandleInputChange(files: seq<File>)
      modifies this
      ensures inputValue == ""
      ensures dragging == old(dragging) && disabled == old(disabled)
      ensures files == [] ==> error == old(error) && uploads == old(uploads)
      ensures files != [] ==> match Validate(files[0])
        case TooLarge => error == Some(TooLargeMessage) && uploads == old(uploads)
        case InvalidType => error == Some(InvalidTypeMessage) && uploads == old(uploads)
        case Accepted => error == None && uploads == old(uploads) + [files[0].dataUrl]
    {
      HandleFileChange(if files == [] then None else Some(files[0]));
      inputValue := "";
    }

    /** `handleDragEnter`: the zone lights up, unless disabled. */
    method DragEnter()
      modifies this
      ensures dragging == (if old(disabled) then old(dragging) else true)
      ensures error == old(error) && uploads == old(uploads)
      ensures inputValue == old(inputValue) && disabled == old(disabled)
    {
      if disabled {
        return;
      }
      dragging := true;
    }

    /** `handleDragLeave`: the zone goes dark, unless disabled. */
    method DragLeave()
      modifies this
      ensures dragging == (if old(disabled) then old(dragging) else false)
      ensures error == old(error) && uploads == old(uploads)
      ensures inputValue == old(inputValue) && disabled == old(disabled)
    {
      if disabled {
        return;
      }
      dragging := false;
    }

    /**
     * `handleDrop`: when disabled nothing happens; otherwise the zone goes dark
     * and only the first dropped file is considered.
     */
    method Drop(files: seq<File>)
      modifies this
      ensures inputValue == old(inputValue) && disabled == old(disabled)
      ensures old(disabled) ==> dragging == old(dragging) && error == old(error) && uploads == old(uploads)
      ensures !old(disabled) ==> !dragging
      ensures !old(disabled) && files == [] ==> error == old(error) && uploads == old(uploads)
      ensures !old(disabled) && files != [] ==> match Validate(files[0])
        case TooLarge => error == Some(TooLargeMessage) && uploads == old(uploads)
        case InvalidType => error == Some(InvalidTypeMessage) && uploads == old(uploads)
        case Accepted => error == None && uploads == old(uploads) + [files[0].dataUrl]
    {
      if disabled {
        return;
      }
      dragging := false;
      HandleFileChange(if files == [] then None else Some(files[0]));
    }
  }

  /** A 5 MB JPEG dropped on an enabled uploader is refused as too large and never uploaded. */
  method DropOversizedJpeg() returns (error: Option<string>, sent: seq<string>)
    ensures error == Some(TooLargeMessage) && sent == []
  {
    var uploader := new Uploader(false);
    uploader.Drop([File(5000000, "image/jpeg", "data:image/jpeg;base64,")]);
    error, sent := uploader.error, uploader.uploads;
  }
}
