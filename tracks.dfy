/**
  The records that flow through the pipeline: a row of the analysed
  table, and the same row once it carries its Camelot code.
 */
module Tracks {

  /** The estimated key column: a string such as "C# minor", or a missing (non-string) value. */
  datatype RawKey = Text(s: string) | NotText

  /** One analysed track, before normalisation. */
  datatype Row = Row(artist: string, title: string, bpm: real, estimatedKey: RawKey, filename: string)

  /** One track ready for sequencing: the row plus its Camelot code column. */
  datatype Track = Track(artist: string, title: string, bpm: real, estimatedKey: RawKey,
                         filename: string, camelotKey: string)

  /** The row with its code column filled in: every field of the row is copied unchanged. */
  function WithCamelotKey(row: Row, code: string): (t: Track)
    ensures t.artist == row.artist && t.title == row.title && t.bpm == row.bpm
    ensures t.estimatedKey == row.estimatedKey && t.filename == row.filename
    ensures t.camelotKey == code
  {
    Track(row.artist, row.title, row.bpm, row.estimatedKey, row.filename, code)
  }

  /** The row a track came from, without its code column. */
  function WithoutCamelotKey(t: Track): Row {
    Row(t.artist, t.title, t.bpm, t.estimatedKey, t.filename)
  }

  /** Adding the code column and taking it away again are inverse. */
  lemma CamelotKeyRoundTrip(row: Row, code: string, t: Track)
    ensures WithoutCamelotKey(WithCamelotKey(row, code)) == row
    ensures WithCamelotKey(WithoutCamelotKey(t), t.camelotKey) == t
  {
  }
}
