/** The record shapes of the catalog: a font's metadata, the catalog entry
    that carries it, a user collection, and an uploaded file. */
module FontTypes {
  import opened Common

  /** One byte of a payload. */
  type Byte = b: nat | b < 256

  /** An uploaded file: its name, its MIME type and its bytes. The file's
      `size` is its byte count. */
  datatype File = File(name: string, mime: string, bytes: seq<Byte>) {
    function Size(): nat { |bytes| }
  }

  /** Optional fields (`version?`, `glyphCount?`, ...) are `Option`s. */
  datatype FontMetadata = FontMetadata(
    family: string,
    subfamily: string,
    fullName: string,
    postscriptName: string,
    version: Option<string>,
    format: string,
    glyphCount: Option<nat>,
    supportedChars: Option<seq<nat>>,
    author: Option<string>,
    copyright: Option<string>,
    license: Option<string>)

  /** A catalog entry. `file` is `None` for system fonts; `hash` is `None`
      where the source leaves it `undefined` (system fonts) and `Some("")`
      for remote (Google) records, so that equality of two hashes is the
      source's `===` on `string | undefined`. */
  datatype FontData = FontData(
    id: string,
    file: Option<File>,
    url: string,
    metadata: FontMetadata,
    tags: seq<string>,
    hash: Option<string>)

  datatype Collection = Collection(id: string, name: string, fontIds: seq<string>)
}
