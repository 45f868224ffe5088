/** The parts of Foundation's `URL` that the command layer touches. */
module Url {
  /**
   * A `URL` value: the text it was built from and the `path` Foundation
   * derives from it. How Foundation parses and percent-decodes is not
   * modelled; `URL(string:)` is a parameter wherever it is called.
   */
  datatype URL = URL(absoluteString: string, path: string)
}
