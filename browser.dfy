/** Browser-side values the components exchange. */
module Browser {

  /**
   * A `File` from a file input or a drop: its size in bytes, its declared
   * MIME type, and the `data:` URL `FileReader.readAsDataURL` yields for it
   * (the reading itself is not modelled).
   */
  datatype File = File(size: nat, mimeType: string, dataUrl: string)

  /** A notification raised with `toast(...)`. */
  datatype Toast = Toast(title: string, description: string, destructive: bool)
}
