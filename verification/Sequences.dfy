/** The sequences that several components share. */
module Sequences {
  /** The bits of a field, in order. */
  type Bitmap = seq<bool>

  /** The input that was cut into pieces. */
  function Flatten(pieces: seq<string>): string {
    if pieces == [] then "" else pieces[0] + Flatten(pieces[1..])
  }
}
