/** A target that collects everything written to it in memory until it is flushed. */
module MemoryTargets {
  import opened Wrappers
  import opened Models

  class MemoryTarget {
    var buffer: string

    /** The buffer starts empty. */
    constructor()
      ensures buffer == []
    {
      buffer := [];
    }

    /** Appends the content; the document, filename and suffix play no part. */
    method Write(document: Document, content: string, filename: Option<string>, suffix: Option<string>)
      modifies this
      ensures buffer == old(buffer) + content
    {
      buffer := buffer + content;
    }

    /** Hands out what was written since the last flush and empties the buffer. */
    method Flush() returns (r: string)
      modifies this
      ensures r == old(buffer) && buffer == []
    {
      r := buffer;
      buffer := [];
    }

    /** Closing a memory target does nothing. */
    method Close()
      ensures buffer == old(buffer)
    {
    }
  }

  /** Two flushes with no write between them: the second hands out nothing. */
  method FlushTwice(target: MemoryTarget) returns (first: string, second: string)
    modifies target
    ensures first == old(target.buffer) && second == [] && target.buffer == []
  {
    first := target.Flush();
    second := target.Flush();
  }
}
