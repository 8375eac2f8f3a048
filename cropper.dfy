/**
 * The image cropper dialog: the user drags a 16:9 selection over the
 * displayed image; confirming draws the selected region onto a canvas and
 * hands on its JPEG `data:` URL (or the original image when nothing was
 * selected); cancelling or closing hands on `null`.
 */
module Cropper {
  import opened Wrappers

  /** An `<img>` element: its intrinsic size and the size it is displayed at. */
  datatype DisplayedImage = DisplayedImage(naturalWidth: real, naturalHeight: real, width: real, height: real)

  /** A completed selection, in display pixels. */
  datatype PixelCrop = PixelCrop(x: real, y: real, width: real, height: real)

  datatype Rect = Rect(x: real, y: real, width: real, height: real)

  /** An image that is actually laid out, so that both scale factors exist. */
  predicate Shown(image: DisplayedImage)
  {
    image.width > 0.0 && image.height > 0.0
  }

  /** Intrinsic pixels per display pixel, horizontally. */
  function ScaleX(image: DisplayedImage): (r: real)
    requires Shown(image)
    ensures r * image.width == image.naturalWidth
    ensures image.naturalWidth > 0.0 ==> r > 0.0
  {
    image.naturalWidth / image.width
  }

  /** Intrinsic pixels per display pixel, vertically. */
  function ScaleY(image: DisplayedImage): (r: real)
    requires Shown(image)
    ensures r * image.height == image.naturalHeight
    ensures image.naturalHeight > 0.0 ==> r > 0.0
  {
    image.naturalHeight / image.height
  }

  /**
   * The region of the intrinsic image a selection covers: each coordinate
   * keeps its fraction of the image along its own axis.
   */
  function SourceRect(image: DisplayedImage, crop: PixelCrop): (r: Rect)
    requires Shown(image)
    ensures r.x * image.width == crop.x * image.naturalWidth
    ensures r.width * image.width == crop.width * image.naturalWidth
    ensures r.y * image.height == crop.y * image.naturalHeight
    ensures r.height * image.height == crop.height * image.naturalHeight
  {
    var sx, sy := ScaleX(image), ScaleY(image);
    Rect(crop.x * sx, crop.y * sy, crop.width * sx, crop.height * sy)
  }

  /**
   * Along one axis: an interval `[offset, offset + size]` inside `[0, shown]`
   * scaled by `natural / shown` lands inside `[0, natural]`.
   */
  lemma AxisInside(offset: real, size: real, shown: real, natural: real)
    requires shown > 0.0 && natural >= 0.0
    requires 0.0 <= offset && 0.0 <= size && offset + size <= shown
    ensures var k := natural / shown;
      0.0 <= offset * k && 0.0 <= size * k && offset * k + size * k <= natural
  {
    var k := natural / shown;
    assert k >= 0.0;
    MultiplyMonotone(0.0, offset, k);
    MultiplyMonotone(0.0, size, k);
    assert offset * k + size * k == (offset + size) * k;
    MultiplyMonotone(offset + size, shown, k);
    assert shown * k == natural;
  }

  /** A selection inside the displayed image maps inside the intrinsic image. */
  lemma SourceInsideImage(image: DisplayedImage, crop: PixelCrop)
    requires Shown(image) && image.naturalWidth >= 0.0 && image.naturalHeight >= 0.0
    requires 0.0 <= crop.x && 0.0 <= crop.width && crop.x + crop.width <= image.width
    requires 0.0 <= crop.y && 0.0 <= crop.height && crop.y + crop.height <= image.height
    ensures var r := SourceRect(image, crop);
      && 0.0 <= r.x && 0.0 <= r.width && r.x + r.width <= image.naturalWidth
      && 0.0 <= r.y && 0.0 <= r.height && r.y + r.height <= image.naturalHeight
  {
    AxisInside(crop.x, crop.width, image.width, image.naturalWidth);
    AxisInside(crop.y, crop.height, image.height, image.naturalHeight);
  }

  lemma MultiplyMonotone(a: real, b: real, k: real)
    requires a <= b && k >= 0.0
    ensures a * k <= b * k
  {
  }

  /** An image displayed at its intrinsic size maps every selection onto itself. */
  lemma UnscaledIsIdentity(image: DisplayedImage, crop: PixelCrop)
    requires Shown(image)
    requires image.naturalWidth == image.width && image.naturalHeight == image.height
    ensures SourceRect(image, crop) == Rect(crop.x, crop.y, crop.width, crop.height)
  {
  }

  /** What `getCroppedImg` draws: the canvas it sets up and the one `drawImage` call. */
  datatype Drawing = Drawing(
    canvasWidth: real, canvasHeight: real,
    transformScale: real,
    source: Rect, destination: Rect,
    format: string)

  /** A cropped image: the drawing and the `data:` URL the canvas yields for it. */
  datatype Cropped = Cropped(drawing: Drawing, dataUrl: string)

  const NoContextError := "No 2d context"

  /**
   * `getCroppedImg`: the canvas is sized to the selection times the device
   * pixel ratio and scaled by that ratio, the selected region of the
   * intrinsic image is drawn into the selection's display size, and the
   * canvas is encoded as JPEG. Without a 2d context it throws.
   */
  method GetCroppedImg(image: DisplayedImage, crop: PixelCrop, pixelRatio: real,
                       contextAvailable: bool, encoded: string) returns (r: Result<Cropped, string>)
    requires Shown(image)
    ensures !contextAvailable ==> r == Failure(NoContextError)
    ensures contextAvailable ==> r.Success? && r.value.dataUrl == encoded
    ensures contextAvailable ==>
      var d := r.value.drawing;
      && d.canvasWidth == crop.width * pixelRatio && d.canvasHeight == crop.height * pixelRatio
      && d.transformScale == pixelRatio
      && d.source == SourceRect(image, crop)
      && d.destination == Rect(0.0, 0.0, crop.width, crop.height)
      && d.format == "image/jpeg"
  {
    var scaleX := image.naturalWidth / image.width;
    var scaleY := image.naturalHeight / image.height;
    var canvasWidth, canvasHeight := crop.width, crop.height;
    if !contextAvailable {
      return Failure(NoContextError);
    }
    canvasWidth := crop.width * pixelRatio;
    canvasHeight := crop.height * pixelRatio;
    var source := Rect(crop.x * scaleX, crop.y * scaleY, crop.width * scaleX, crop.height * scaleY);
    var destination := Rect(0.0, 0.0, crop.width, crop.height);
    var drawing := Drawing(canvasWidth, canvasHeight, pixelRatio, source, destination, "image/jpeg");
    r := Success(Cropped(drawing, encoded));
  }

  /**
   * The output canvas has the intrinsic width of the selected region only
   * when the device pixel ratio happens to equal the horizontal scale.
   */
  lemma NativeWidthOnlyAtMatchingRatio(image: DisplayedImage, crop: PixelCrop, pixelRatio: real)
    requires Shown(image) && crop.width > 0.0
    ensures crop.width * pixelRatio == SourceRect(image, crop).width <==> pixelRatio == ScaleX(image)
  {
    var w := SourceRect(image, crop).width;
    assert w == crop.width * ScaleX(image);
    if crop.width * pixelRatio == w {
      CancelFactor(crop.width, pixelRatio, ScaleX(image));
    }
  }

  lemma CancelFactor(c: real, a: real, b: real)
    requires c > 0.0 && c * a == c * b
    ensures a == b
  {
  }

  /**
   * A 1920x1080 image shown at half size, with the selection (100, 100, 400,
   * 300): the drawn source region is (200, 200, 800, 600) in intrinsic
   * pixels, but the output canvas is 400 x 300 times the device pixel ratio.
   */
  lemma HalfScaleSelection(pixelRatio: real)
    ensures var image := DisplayedImage(1920.0, 1080.0, 960.0, 540.0);
      var crop := PixelCrop(100.0, 100.0, 400.0, 300.0);
      && SourceRect(image, crop) == Rect(200.0, 200.0, 800.0, 600.0)
      && (crop.width * pixelRatio == 800.0 <==> pixelRatio == 2.0)
  {
  }

  datatype CropUnit = Percent | Pixels

  /** A selection as the crop widget holds it, in percent or in display pixels. */
  datatype Crop = Crop(unit: CropUnit, x: real, y: real, width: real, height: real)

  /** The aspect ratio the selection is locked to. */
  const Aspect: real := 16.0 / 9.0

  /** The initial selection asked of the crop widget: centred, 90% wide, at the locked aspect. */
  datatype CropRequest = CropRequest(unit: CropUnit, width: real, aspect: real,
                                     mediaWidth: real, mediaHeight: real, centred: bool)

  function InitialRequest(mediaWidth: real, mediaHeight: real): (q: CropRequest)
    ensures q.unit == Percent && q.width == 90.0 && q.aspect == 16.0 / 9.0 && q.centred
    ensures q.mediaWidth == mediaWidth && q.mediaHeight == mediaHeight
  {
    CropRequest(Percent, 90.0, Aspect, mediaWidth, mediaHeight, true)
  }

  class ImageCropper {
    const imageToCrop: string
    /** The aspect the widget keeps every selection at. */
    const aspect: real
    var crop: Option<Crop>
    var completedCrop: Option<PixelCrop>
    /** The initial selection requested when the image loaded. */
    var requested: Option<CropRequest>
    /** Every value handed to `onImageCropped`, oldest first. */
    var emitted: seq<Option<string>>

    constructor (imageToCrop: string)
      ensures this.imageToCrop == imageToCrop && aspect == Aspect
      ensures crop == None && completedCrop == None && requested == None && emitted == []
    {
      this.imageToCrop := imageToCrop;
      aspect := Aspect;
      crop, completedCrop, requested, emitted := None, None, None, [];
    }

    /**
     * `onImageLoad`: the initial selection is requested for the displayed
     * size; `centred` is the selection the widget computes for that request.
     */
    method OnImageLoad(width: real, height: real, centred: Crop)
      modifies this
      ensures requested == Some(InitialRequest(width, height)) && crop == Some(centred)
      ensures completedCrop == old(completedCrop) && emitted == old(emitted)
    {
      requested := Some(InitialRequest(width, height));
      crop := Some(centred);
    }

    /** The widget's `onChange`: the selection being dragged. */
    method OnChange(c: Crop)
      modifies this
      ensures crop == Some(c)
      ensures completedCrop == old(completedCrop) && requested == old(requested) && emitted == old(emitted)
    {
      crop := Some(c);
    }

    /** The widget's `onComplete`: the finished selection in display pixels. */
    method OnComplete(c: PixelCrop)
      modifies this
      ensures completedCrop == Some(c)
      ensures crop == old(crop) && requested == old(requested) && emitted == old(emitted)
    {
      completedCrop := Some(c);
    }

    /**
     * `handleCrop` ("Crop and Process"): with a finished selection and a
     * loaded image, the cropped image is handed on (or, without a 2d context,
     * the handler throws and nothing is handed on); otherwise the original
     * image is handed on unchanged, even when the image element is mounted
     * but not yet laid out.
     */
    method HandleCrop(image: Option<DisplayedImage>, pixelRatio: real,
                      contextAvailable: bool, encoded: string) returns (threw: bool)
      requires completedCrop.Some? && image.Some? ==> Shown(image.value)
      modifies this
      ensures crop == old(crop) && completedCrop == old(completedCrop) && requested == old(requested)
      ensures threw <==> completedCrop.Some? && image.Some? && !contextAvailable
      ensures completedCrop.Some? && image.Some? && contextAvailable ==> emitted == old(emitted) + [Some(encoded)]
      ensures threw ==> emitted == old(emitted)
      ensures !(completedCrop.Some? && image.Some?) ==> emitted == old(emitted) + [Some(imageToCrop)]
    {
      threw := false;
      if completedCrop.Some? && image.Some? {
        var r := GetCroppedImg(image.value, completedCrop.value, pixelRatio, contextAvailable, encoded);
        if r.Failure? {
          threw := true;
          return;
        }
        emitted := emitted + [Some(r.value.dataUrl)];
      } else {
        emitted := emitted + [Some(imageToCrop)];
      }
    }

    /** The Cancel button hands on `null`. */
    method Cancel()
      modifies this
      ensures emitted == old(emitted) + [None]
      ensures crop == old(crop) && completedCrop == old(completedCrop) && requested == old(requested)
    {
      emitted := emitted + [None];
    }

    /** The dialog's `onOpenChange`: closing it hands on `null`. */
    method OpenChange(isOpen: bool)
      modifies this
      ensures emitted == if isOpen then old(emitted) else old(emitted) + [None]
      ensures crop == old(crop) && completedCrop == old(completedCrop) && requested == old(requested)
    {
      if !isOpen {
        emitted := emitted + [None];
      }
    }
  }

  /**
   * "Crop and Process" pressed before the image is laid out (display size 0)
   * and before any selection: the original image is handed on.
   */
  method CropBeforeLayout(imageToCrop: string) returns (handedOn: seq<Option<string>>)
    ensures handedOn == [Some(imageToCrop)]
  {
    var cropper := new ImageCropper(imageToCrop);
    var threw := cropper.HandleCrop(Some(DisplayedImage(0.0, 0.0, 0.0, 0.0)), 1.0, true, "");
    handedOn := cropper.emitted;
  }
}
