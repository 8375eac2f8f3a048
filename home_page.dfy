/**
 * The home page: it takes an image from the camera dialog or the file
 * input, hands it to the cropper, sends the cropped image to the OCR flow,
 * shows the result and records it in the history log.
 */
module HomePage {
  import opened Wrappers
  import opened Browser
  import opened History

  /** One ambiguous word the OCR flow flags, with its candidate replacements. */
  datatype Clarification = Clarification(originalWord: string, suggestions: seq<string>, reasoning: string)

  /** The OCR flow's answer; only `extractedText` reaches the history log. */
  datatype OcrOutput = OcrOutput(contextualSummary: string, extractedText: string, clarifications: seq<Clarification>)

  /** The outcome of the awaited OCR call: an answer, or a thrown error. */
  datatype Extraction = Extracted(output: OcrOutput) | ExtractionFailed

  const ExtractionFailedToast :=
    Toast("Extraction Failed", "There was an error extracting text from the image. Please try again.", true)

  /** The record a successful extraction of `imageUrl` adds to the log. */
  function NewItem(imageUrl: string, output: OcrOutput, idClock: int, stampClock: int): (item: Item)
    ensures item.image == imageUrl && item.text == output.extractedText
    ensures item.id == idClock && item.timestamp == stampClock
  {
    Item(idClock, imageUrl, output.extractedText, stampClock)
  }

  /**
   * Whether the `try` block of an extraction runs to its end: the OCR call
   * answers, the stored list can be read back, and the storage write succeeds.
   */
  predicate Saves(outcome: Extraction, slot: StoredHistory, writeFails: bool)
  {
    outcome.Extracted? && !slot.Unparsable? && !writeFails
  }

  /** JavaScript truthiness of a string that may be `null`: present and non-empty. */
  predicate Truthy(s: Option<string>)
  {
    s.Some? && s.value != ""
  }

  class Home {
    var ocrResult: Option<OcrOutput>
    var isLoading: bool
    var currentImage: Option<string>
    var imageToCrop: Option<string>
    var isCameraOpen: bool
    /** The value of the hidden file input. */
    var fileInputValue: string
    /** Every toast raised so far, oldest first. */
    var toasts: seq<Toast>
    const storage: LocalStorage

    constructor (storage: LocalStorage)
      ensures this.storage == storage
      ensures ocrResult == None && !isLoading && currentImage == None
      ensures imageToCrop == None && !isCameraOpen && fileInputValue == "" && toasts == []
    {
      this.storage := storage;
      ocrResult, isLoading, currentImage := None, false, None;
      imageToCrop, isCameraOpen, fileInputValue, toasts := None, false, "", [];
    }

    /** The part of `handleExtraction` before the awaited OCR call. */
    method StartExtraction(imageUrl: string)
      modifies this
      ensures isLoading && ocrResult == None && currentImage == Some(imageUrl) && !isCameraOpen
      ensures imageToCrop == old(imageToCrop) && fileInputValue == old(fileInputValue)
      ensures toasts == old(toasts)
    {
      isLoading := true;
      ocrResult := None;
      currentImage := Some(imageUrl);
      isCameraOpen := false;
    }

    /**
     * The part of `handleExtraction` after the awaited OCR call: on success the
     * result is shown and the new record is put at the head of the stored list,
     * which is written back cut to fifty entries. Any throw (the call, reading
     * the stored list back, the write) lands in one handler that raises a toast
     * and clears the current image. Loading ends either way.
     */
    method CompleteExtraction(imageUrl: string, outcome: Extraction, idClock: int, stampClock: int, writeFails: bool)
      modifies this, storage
      ensures !isLoading
      ensures imageToCrop == old(imageToCrop) && isCameraOpen == old(isCameraOpen)
      ensures fileInputValue == old(fileInputValue)
      ensures ocrResult == if outcome.Extracted? then Some(outcome.output) else old(ocrResult)
      ensures Saves(outcome, old(storage.transcriptionHistory), writeFails) ==>
        && storage.transcriptionHistory ==
           Parsed(Record(ReadBack(old(storage.transcriptionHistory)).value,
                         NewItem(imageUrl, outcome.output, idClock, stampClock)))
        && currentImage == old(currentImage)
        && toasts == old(toasts)
      ensures !Saves(outcome, old(storage.transcriptionHistory), writeFails) ==>
        && storage.transcriptionHistory == old(storage.transcriptionHistory)
        && currentImage == None
        && toasts == old(toasts) + [ExtractionFailedToast]
    {
      var failed := false;
      match outcome {
        case ExtractionFailed =>
          failed := true;
        case Extracted(result) =>
          ocrResult := Some(result);
          var item := NewItem(imageUrl, result, idClock, stampClock);
          var stored := storage.transcriptionHistory;
          if stored.Unparsable? {
            failed := true;
          } else {
            var history := if stored.Parsed? then stored.items else [];
            history := [item] + history;
            if writeFails {
              failed := true;
            } else {
              storage.transcriptionHistory := Parsed(Take(history, HistoryLimit));
            }
          }
      }
      if failed {
        toasts := toasts + [ExtractionFailedToast];
        currentImage := None;
      }
      isLoading := false;
    }

    /** `handleExtraction`, run from start to end without interleaving. */
    method HandleExtraction(imageUrl: string, outcome: Extraction, idClock: int, stampClock: int, writeFails: bool)
      modifies this, storage
      ensures !isLoading && !isCameraOpen
      ensures imageToCrop == old(imageToCrop) && fileInputValue == old(fileInputValue)
      ensures ocrResult == if outcome.Extracted? then Some(outcome.output) else None
      ensures Saves(outcome, old(storage.transcriptionHistory), writeFails) ==>
        && storage.transcriptionHistory ==
           Parsed(Record(ReadBack(old(storage.transcriptionHistory)).value,
                         NewItem(imageUrl, outcome.output, idClock, stampClock)))
        && currentImage == Some(imageUrl)
        && toasts == old(toasts)
      ensures !Saves(outcome, old(storage.transcriptionHistory), writeFails) ==>
        && storage.transcriptionHistory == old(storage.transcriptionHistory)
        && currentImage == None
        && toasts == old(toasts) + [ExtractionFailedToast]
    {
      StartExtraction(imageUrl);
      CompleteExtraction(imageUrl, outcome, idClock, stampClock, writeFails);
    }

    /** `onImageSelected`: the image goes to the cropper and the camera dialog closes. */
    method OnImageSelected(imageUrl: string)
      modifies this
      ensures imageToCrop == Some(imageUrl) && !isCameraOpen
      ensures ocrResult == old(ocrResult) && isLoading == old(isLoading)
      ensures currentImage == old(currentImage) && fileInputValue == old(fileInputValue)
      ensures toasts == old(toasts)
    {
      imageToCrop := Some(imageUrl);
      isCameraOpen := false;
    }

    /**
     * `handleFileChange` of the hidden file input: the first chosen file, if
     * any, goes to the cropper with no size or type check; the input is reset
     * so that the same file can be chosen again.
     */
    method HandleFileChange(files: seq<File>)
      modifies this
      ensures fileInputValue == ""
      ensures files != [] ==> imageToCrop == Some(files[0].dataUrl) && !isCameraOpen
      ensures files == [] ==> imageToCrop == old(imageToCrop) && isCameraOpen == old(isCameraOpen)
      ensures ocrResult == old(ocrResult) && isLoading == old(isLoading)
      ensures currentImage == old(currentImage) && toasts == old(toasts)
    {
      if files != [] {
        var file := files[0];
        OnImageSelected(file.dataUrl);
      }
      fileInputValue := "";
    }

    /** The camera dialog's `onOpenChange`. */
    method SetCameraOpen(open: bool)
      modifies this
      ensures isCameraOpen == open
      ensures imageToCrop == old(imageToCrop) && ocrResult == old(ocrResult) && isLoading == old(isLoading)
      ensures currentImage == old(currentImage) && fileInputValue == old(fileInputValue)
      ensures toasts == old(toasts)
    {
      isCameraOpen := open;
    }

    /**
     * The cropper's `onImageCropped` callback: the cropper closes, and only a
     * truthy image (present and non-empty) starts an extraction, of exactly
     * that image.
     */
    method OnImageCropped(cropped: Option<string>, outcome: Extraction, idClock: int, stampClock: int, writeFails: bool)
      modifies this, storage
      ensures imageToCrop == None
      ensures !Truthy(cropped) ==>
        && storage.transcriptionHistory == old(storage.transcriptionHistory)
        && ocrResult == old(ocrResult) && isLoading == old(isLoading)
        && currentImage == old(currentImage) && isCameraOpen == old(isCameraOpen)
        && toasts == old(toasts)
      ensures Truthy(cropped) ==> !isLoading && !isCameraOpen
      ensures Truthy(cropped) ==>
        ocrResult == if outcome.Extracted? then Some(outcome.output) else None
      ensures Truthy(cropped) && Saves(outcome, old(storage.transcriptionHistory), writeFails) ==>
        && storage.transcriptionHistory ==
           Parsed(Record(ReadBack(old(storage.transcriptionHistory)).value,
                         NewItem(cropped.value, outcome.output, idClock, stampClock)))
        && currentImage == cropped
        && toasts == old(toasts)
      ensures Truthy(cropped) && !Saves(outcome, old(storage.transcriptionHistory), writeFails) ==>
        && storage.transcriptionHistory == old(storage.transcriptionHistory)
        && currentImage == None
        && toasts == old(toasts) + [ExtractionFailedToast]
      ensures fileInputValue == old(fileInputValue)
    {
      imageToCrop := None;
      if Truthy(cropped) {
        HandleExtraction(cropped.value, outcome, idClock, stampClock, writeFails);
      }
    }
  }
}
