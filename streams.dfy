/**
 * The pipes to and from a child process, one operation at a time. Each
 * `reader.read()` yields one decoded chunk, or rejects because the stream
 * has errored; a reader with nothing left to yield reports `done`. Each
 * `writer.write()` is accepted or rejects, for instance once the child has
 * exited.
 */
module Streams {

  datatype ReadResult = Chunk(text: string) | ReadError

  datatype WriteResult = Written | WriteError
}
